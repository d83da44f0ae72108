/** The admin gate (middleware.ts): requests under /admin need a token whose
    decoded user has the ADMIN role. The framework runs the gate only on the
    paths its `matcher` names, `/admin/:path*`. */
module AdminGate {
  import opened Wrappers
  import opened Text

  /** The part of the request URL the gate reads and rewrites. */
  datatype Url = Url(origin: string, pathname: string, search: string)

  /** What `verifyToken` decodes from a valid token. */
  datatype TokenUser = TokenUser(id: int, role: string)

  datatype Decision = Next | Redirect(target: Url)

  /** `middleware`: `cookie` is the `auth-token` cookie's value and `verify`
      stands for `verifyToken`. */
  function Middleware(url: Url, cookie: Option<string>, verify: string -> Option<TokenUser>): (d: Decision)
    ensures !StartsWith(url.pathname, "/admin") ==> d == Next
    ensures d.Redirect? ==> d.target.origin == url.origin && d.target.search == ""
  {
    if StartsWith(url.pathname, "/admin") then
      var user := if cookie.Some? && cookie.value != "" then verify(cookie.value) else None;
      if user.None? then Redirect(url.(pathname := "/login", search := ""))
      else if user.value.role != "ADMIN" then Redirect(url.(pathname := "/", search := ""))
      else Next
    else Next
  }

  /** The user a request carries: none without a non-empty cookie or when the
      token does not verify. */
  function Caller(cookie: Option<string>, verify: string -> Option<TokenUser>): Option<TokenUser> {
    if cookie.Some? && cookie.value != "" then verify(cookie.value) else None
  }

  /** Under /admin the three outcomes split by the caller: nobody goes to the
      login page, a non-admin to the home page, an admin passes. */
  lemma AdminOutcomes(url: Url, cookie: Option<string>, verify: string -> Option<TokenUser>)
    requires StartsWith(url.pathname, "/admin")
    ensures Middleware(url, cookie, verify) == Redirect(Url(url.origin, "/login", "")) <==> Caller(cookie, verify).None?
    ensures Middleware(url, cookie, verify) == Redirect(Url(url.origin, "/", "")) <==>
      Caller(cookie, verify).Some? && Caller(cookie, verify).value.role != "ADMIN"
    ensures Middleware(url, cookie, verify) == Next <==>
      Caller(cookie, verify).Some? && Caller(cookie, verify).value.role == "ADMIN"
  {
  }

  /** A request passes exactly when it is outside /admin or comes from an admin. */
  lemma PassesIff(url: Url, cookie: Option<string>, verify: string -> Option<TokenUser>)
    ensures Middleware(url, cookie, verify) == Next <==>
      !StartsWith(url.pathname, "/admin") ||
      (Caller(cookie, verify).Some? && Caller(cookie, verify).value.role == "ADMIN")
  {
  }

  /** The function's own prefix test is textual: handed "/administrator", it
      would redirect. */
  lemma PrefixIsTextual(url: Url, cookie: Option<string>, verify: string -> Option<TokenUser>)
    requires url.pathname == "/administrator" && Caller(cookie, verify).None?
    ensures Middleware(url, cookie, verify).Redirect?
  {
    assert url.pathname[..6] == "/admin";
  }

  /** The `matcher` pattern `/admin/:path*`: /admin itself or any path below it. */
  predicate Matched(pathname: string) {
    pathname == "/admin" || StartsWith(pathname, "/admin/")
  }

  /** A request as the framework handles it: the gate runs on matched paths,
      every other request goes through untouched. */
  function Gate(url: Url, cookie: Option<string>, verify: string -> Option<TokenUser>): (d: Decision)
    ensures !Matched(url.pathname) ==> d == Next
    ensures Matched(url.pathname) ==> d == Middleware(url, cookie, verify)
  {
    if Matched(url.pathname) then Middleware(url, cookie, verify) else Next
  }

  /** Every matched path passes the gate's prefix test, so on matched paths
      the test never lets a request through unchecked. */
  lemma MatchedIsUnderPrefix(pathname: string)
    requires Matched(pathname)
    ensures StartsWith(pathname, "/admin")
  {
    if pathname != "/admin" {
      assert pathname[..6] == pathname[..7][..6];
    }
  }

  /** A request passes exactly when its path is not matched or it comes from
      an admin; so "/administrator", which the matcher does not name, passes. */
  lemma GatePassesIff(url: Url, cookie: Option<string>, verify: string -> Option<TokenUser>)
    ensures Gate(url, cookie, verify) == Next <==>
      !Matched(url.pathname) ||
      (Caller(cookie, verify).Some? && Caller(cookie, verify).value.role == "ADMIN")
  {
    if Matched(url.pathname) {
      MatchedIsUnderPrefix(url.pathname);
    }
  }

  /** "/administrator" is not matched, so it passes whatever the caller. */
  lemma AdministratorNotGated(url: Url, cookie: Option<string>, verify: string -> Option<TokenUser>)
    requires url.pathname == "/administrator"
    ensures Gate(url, cookie, verify) == Next
  {
    assert url.pathname[6] == 'i';
  }
}
