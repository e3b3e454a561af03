/**
 * The request proxy: it records the request's origin and URL in two headers
 * and decides, from the session and the path, whether to redirect, rewrite or
 * let the request through.
 */
module Proxy {
  import opened Wrappers
  import opened HttpHeaders

  /**
   * The names of the two headers the proxy sets (ORIGIN_HEADER and
   * CURRENT_URL_HEADER of the configuration module, which is not part of this model).
   */
  datatype HeaderNames = HeaderNames(origin: string, currentUrl: string)

  /** `url` is the request URL that relative targets are resolved against. */
  datatype Request = Request(url: string, pathname: string, headers: Headers)

  /** The signed-in user of the session, as the authentication library reports it. */
  datatype User = User(role: Option<string>)

  /** `new URL(path, base)` with the query parameters set on it. */
  datatype Location = Location(base: string, path: string, query: seq<(string, string)>)

  datatype Response =
    | Redirect(to: Location, headers: Headers)
    | Rewrite(to: Location, headers: Headers)
    | Next(headers: Headers)

  const XForwardedHost: string := "x-forwarded-host"
  const Host: string := "host"
  const XForwardedProto: string := "x-forwarded-proto"

  /** A template literal prints a missing (`null`) value as "null". */
  function Interpolate(v: Option<string>): string {
    v.GetOr("null")
  }

  /** `${x-forwarded-host ?? host}`: the forwarded host, else the host, else "null". */
  function HostHeader(h: Headers): (r: string)
    ensures XForwardedHost in h ==> r == h[XForwardedHost]
    ensures XForwardedHost !in h && Host in h ==> r == h[Host]
    ensures XForwardedHost !in h && Host !in h ==> r == "null"
  {
    Interpolate(Get(h, XForwardedHost).OrElse(Get(h, Host)))
  }

  /** `x-forwarded-proto ?? "http"`. */
  function Proto(h: Headers): (r: string)
    ensures XForwardedProto in h ==> r == h[XForwardedProto]
    ensures XForwardedProto !in h ==> r == "http"
  {
    Get(h, XForwardedProto).GetOr("http")
  }

  /** The origin the proxy records: `${proto}://${hostHeader}`. */
  function Origin(req: Request): (r: string)
    ensures var h := req.headers;
      XForwardedHost in h ==> r == Proto(h) + "://" + h[XForwardedHost]
    ensures var h := req.headers;
      XForwardedHost !in h && Host in h ==> r == Proto(h) + "://" + h[Host]
    ensures var h := req.headers;
      XForwardedHost !in h && Host !in h ==> |r| >= 7 && r[|r| - 7..] == "://null"
    ensures var h := req.headers;
      XForwardedProto !in h ==> |r| >= 7 && r[..7] == "http://"
    ensures var h := req.headers;
      XForwardedProto in h ==> |r| >= |h[XForwardedProto]| + 3 && r[..|h[XForwardedProto]| + 3] == h[XForwardedProto] + "://"
  {
    Proto(req.headers) + "://" + HostHeader(req.headers)
  }

  /** The current URL the proxy records: the origin, then the request path. */
  function FullUrl(req: Request): (r: string)
    ensures |r| == |Origin(req)| + |req.pathname|
    ensures r[..|Origin(req)|] == Origin(req) && r[|Origin(req)|..] == req.pathname
  {
    Proto(req.headers) + "://" + HostHeader(req.headers) + req.pathname
  }

  /** A copy of the request headers with the origin and current-URL headers set. */
  function ForwardHeaders(req: Request, names: HeaderNames): (r: Headers)
    ensures r.Keys == req.headers.Keys + {names.origin, names.currentUrl}
    ensures r[names.currentUrl] == FullUrl(req)
    ensures names.origin != names.currentUrl ==> r[names.origin] == Origin(req)
    ensures forall k :: k in req.headers && k != names.origin && k != names.currentUrl ==> r[k] == req.headers[k]
  {
    var copy := req.headers;
    var withOrigin := copy[names.origin := Origin(req)];
    withOrigin[names.currentUrl := FullUrl(req)]
  }

  /** `createRouteMatcher(["/sign-in", "/sign-up"])`: the anchored patterns match these paths exactly. */
  predicate IsSignInOrUpRoute(path: string) {
    path == "/sign-in" || path == "/sign-up"
  }

  /** The characters the regular-expression `.` does not match. */
  predicate IsLineTerminator(c: char) {
    c == '\n' || c == '\r' || c == '\U{2028}' || c == '\U{2029}'
  }

  /** `createRouteMatcher(["/tpanel(.*)"])`: "/tpanel" followed by anything without a line break. */
  predicate IsTPanelRoute(path: string) {
    |path| >= 7 && path[..7] == "/tpanel" && forall i :: 7 <= i < |path| ==> !IsLineTerminator(path[i])
  }

  predicate IsStaff(u: User) {
    u.role == Some("teacher") || u.role == Some("admin")
  }

  /** `proxy`; `session` is the user the session lookup returns, if any. */
  function Decide(req: Request, session: Option<User>, names: HeaderNames): (r: Response)
    ensures r.headers == ForwardHeaders(req, names)
    ensures r == Redirect(Location(req.url, "/", []), ForwardHeaders(req, names))
        <==> session.Some? && IsSignInOrUpRoute(req.pathname)
    ensures r == Redirect(Location(req.url, "/signin", [("callbackUrl", FullUrl(req))]), ForwardHeaders(req, names))
        <==> session.None? && IsTPanelRoute(req.pathname)
    ensures r.Rewrite? <==> session.Some? && !IsSignInOrUpRoute(req.pathname)
                            && IsTPanelRoute(req.pathname) && !IsStaff(session.value)
    ensures r.Rewrite? ==> r.to == Location(req.url, "/not-found", [])
    ensures r.Next? <==> (session.None? && !IsTPanelRoute(req.pathname))
                         || (session.Some? && !IsSignInOrUpRoute(req.pathname)
                             && (!IsTPanelRoute(req.pathname) || IsStaff(session.value)))
  {
    var headers := ForwardHeaders(req, names);
    if session.Some? && IsSignInOrUpRoute(req.pathname) then
      Redirect(Location(req.url, "/", []), headers)
    else if IsTPanelRoute(req.pathname) then
      if session.None? then
        Redirect(Location(req.url, "/signin", [("callbackUrl", FullUrl(req))]), headers)
      else if !IsStaff(session.value) then
        Rewrite(Location(req.url, "/not-found", []), headers)
      else Next(headers)
    else Next(headers)
  }

  /** An anonymous visitor of the sign-in page, and staff in the teacher panel, pass through. */
  lemma PassThroughCases(req: Request, names: HeaderNames, role: string)
    ensures req.pathname == "/sign-in" ==> Decide(req, None, names).Next?
    ensures IsTPanelRoute(req.pathname) && (role == "teacher" || role == "admin") ==>
      Decide(req, Some(User(Some(role))), names).Next?
  {
    if req.pathname == "/sign-in" {
      assert req.pathname[1] != "/tpanel"[1];
    }
  }
}
