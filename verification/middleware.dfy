/** The request middleware, `src/middleware.ts`: block forwarded-host headers
    in production, apply the admin and the general rate limits, and attach
    security headers in production. Logging is left out; the environment mode
    and the clock are parameters. */
module Middleware {
  import opened Common
  import opened Text
  import opened RateLimit

  /** `RATE_LIMIT_WINDOW`, one minute. */
  const WindowMs: int := 60000
  /** `MAX_REQUESTS`. */
  const MaxRequests: int := 100
  /** `ADMIN_LOGIN_LIMIT`. */
  const AdminLoginLimit: int := 5

  /** The headers that are rejected outright in production. */
  const SuspiciousHeaders: seq<string> := ["x-forwarded-host", "x-forwarded-server", "x-forwarded-uri"]

  /** The headers attached to a passing response in production. */
  const ProductionHeaders: seq<(string, string)> :=
    [("X-DNS-Prefetch-Control", "off"), ("X-Download-Options", "noopen"), ("X-Permitted-Cross-Domain-Policies", "none")]

  /** An incoming request: the platform-provided address (if any), the headers by
      lower-case name, and the URL path. */
  datatype Request = Request(ip: Option<string>, headers: map<string, string>, pathname: string)

  datatype Response =
    | Forbidden                                // 403
    | TooManyRequests                          // 429
    | Next(headers: seq<(string, string)>)     // NextResponse.next() with extra headers

  /** `headers.get(name)` is truthy: present and non-empty. */
  predicate HasHeader(req: Request, name: string)
  {
    name in req.headers && req.headers[name] != ""
  }

  /** `request.ip || x-forwarded-for || 'unknown'`. */
  function ClientIp(req: Request): (ip: string)
    ensures req.ip.Some? && req.ip.value != "" ==> ip == req.ip.value
    ensures !(req.ip.Some? && req.ip.value != "") && HasHeader(req, "x-forwarded-for") ==> ip == req.headers["x-forwarded-for"]
    // every client without an address shares the one bucket "unknown"
    ensures !(req.ip.Some? && req.ip.value != "") && !HasHeader(req, "x-forwarded-for") ==> ip == "unknown"
    ensures ip != ""
  {
    if req.ip.Some? && req.ip.value != "" then req.ip.value
    else if HasHeader(req, "x-forwarded-for") then req.headers["x-forwarded-for"]
    else "unknown"
  }

  /** `${ip}:${endpoint}`. */
  function RateKey(ip: string, endpoint: string): string
  {
    ip + ":" + endpoint
  }

  /** `endpoint === 'admin-login' ? ADMIN_LOGIN_LIMIT : MAX_REQUESTS`. */
  function LimitFor(endpoint: string): int
  {
    if endpoint == "admin-login" then AdminLoginLimit else MaxRequests
  }

  /** `isRateLimited(ip, endpoint)` against the shared store. */
  function Limited(store: Store, ip: string, endpoint: string, now: int): (Store, bool)
  {
    Hit(store, RateKey(ip, endpoint), now, LimitFor(endpoint), WindowMs)
  }

  /** Some header of the blocked list is set. */
  predicate Suspicious(req: Request)
  {
    exists k | 0 <= k < |SuspiciousHeaders| :: HasHeader(req, SuspiciousHeaders[k])
  }

  predicate IsAdminPath(req: Request)
  {
    StartsWith(req.pathname, "/admin")
  }

  /** The address's window for `endpoint` is open and already holds the endpoint's
      limit, so one more request is refused. */
  predicate AtLimit(store: Store, ip: string, endpoint: string, now: int)
  {
    var key := RateKey(ip, endpoint);
    !Expired(store, key, now) && store[key].count >= LimitFor(endpoint)
  }

  /** The admin step: counted against `admin-login` on `/admin` paths, skipped elsewhere. */
  function AdminStep(store: Store, req: Request, now: int): (Store, bool)
  {
    if IsAdminPath(req) then Limited(store, ClientIp(req), "admin-login", now) else (store, false)
  }

  /** `middleware(request)` with `NODE_ENV === 'development'` given as `isDevelopment`. */
  function Handle(store: Store, req: Request, now: int, isDevelopment: bool): (r: (Store, Response))
    ensures r.1.Forbidden? <==> !isDevelopment && Suspicious(req)
    ensures r.1.Next? ==> r.1.headers == (if isDevelopment then [] else ProductionHeaders)
    ensures r.1.Forbidden? ==> r.0 == store
    // past the header block: 429 exactly when the admin window (on `/admin`) or the
    // general window of the address is full, and the request passes otherwise
    ensures !r.1.Forbidden? ==>
              (r.1.TooManyRequests? <==>
                 (IsAdminPath(req) && AtLimit(store, ClientIp(req), "admin-login", now))
                 || AtLimit(store, ClientIp(req), "general", now))
    ensures !r.1.Forbidden? ==> (r.1.Next? <==> !r.1.TooManyRequests?)
    // the store is the admin step's, followed by the general step's unless the admin
    // step refused the request
    ensures !r.1.Forbidden? ==>
              var a := AdminStep(store, req, now);
              r.0 == (if a.1 then a.0 else Limited(a.0, ClientIp(req), "general", now).0)
    ensures forall k :: k in store && k != RateKey(ClientIp(req), "admin-login") && k != RateKey(ClientIp(req), "general")
              ==> k in r.0 && r.0[k] == store[k]
  {
    var ip := ClientIp(req);
    AdminAndGeneralKeysDiffer(ip, ip);
    if !isDevelopment && Suspicious(req) then (store, Forbidden)
    else
      var admin := AdminStep(store, req, now);
      if admin.1 then (admin.0, TooManyRequests)
      else
        var general := Limited(admin.0, ip, "general", now);
        if general.1 then (general.0, TooManyRequests)
        else (general.0, Next(if isDevelopment then [] else ProductionHeaders))
  }

  /** The admin and the general counters never share a key, whatever the addresses. */
  lemma AdminAndGeneralKeysDiffer(ip1: string, ip2: string)
    ensures RateKey(ip1, "admin-login") != RateKey(ip2, "general")
  {
    var a := RateKey(ip1, "admin-login");
    var g := RateKey(ip2, "general");
    assert a[|a| - 1] == 'n' && g[|g| - 1] == 'l';
  }

  /** Rate limiting behaves identically in both modes (the source's "relaxed in development"
      comment notwithstanding): apart from the header block and the extra headers, the
      mode changes nothing. */
  lemma ModesShareLimits(store: Store, req: Request, now: int)
    requires !Suspicious(req)
    ensures Handle(store, req, now, true).0 == Handle(store, req, now, false).0
    ensures Handle(store, req, now, true).1.TooManyRequests? <==> Handle(store, req, now, false).1.TooManyRequests?
  {
  }

  /** A request refused by the admin limit is not counted against the general limit. */
  lemma AdminRejectionSkipsGeneral(store: Store, req: Request, now: int, isDevelopment: bool)
    requires !(!isDevelopment && Suspicious(req)) && IsAdminPath(req)
    requires Limited(store, ClientIp(req), "admin-login", now).1
    ensures Handle(store, req, now, isDevelopment) == (store, TooManyRequests)
  {
  }

  /** Outside `/admin` the admin counter is never touched. */
  lemma NonAdminLeavesAdminCounter(store: Store, req: Request, now: int, isDevelopment: bool, ip: string)
    requires !IsAdminPath(req)
    ensures var k := RateKey(ip, "admin-login");
            var r := Handle(store, req, now, isDevelopment).0;
            (k in r <==> k in store) && (k in store ==> r[k] == store[k])
  {
    AdminAndGeneralKeysDiffer(ip, ClientIp(req));
  }

  /** The user agent is only logged: it never changes the outcome. */
  lemma UserAgentIgnored(store: Store, req: Request, agent: string, now: int, isDevelopment: bool)
    ensures var req' := req.(headers := req.headers["user-agent" := agent]);
            Handle(store, req', now, isDevelopment) == Handle(store, req, now, isDevelopment)
  {
    var req' := req.(headers := req.headers["user-agent" := agent]);
    assert ClientIp(req') == ClientIp(req);
    assert forall k | 0 <= k < |SuspiciousHeaders| :: HasHeader(req', SuspiciousHeaders[k]) == HasHeader(req, SuspiciousHeaders[k]);
  }

  /** A first request from an address passes as long as it carries no blocked header. */
  lemma FirstRequestPasses(req: Request, now: int, isDevelopment: bool)
    requires !(!isDevelopment && Suspicious(req))
    ensures Handle(map[], req, now, isDevelopment).1.Next?
  {
    AdminAndGeneralKeysDiffer(ClientIp(req), ClientIp(req));
  }

  /** The middleware's counter is the `createRateLimiter` algorithm with the endpoint's
      limit and a one-minute window, over the shared store. */
  lemma MiddlewareMatchesFactory(store: Store, ip: string, endpoint: string, now: int)
    ensures var r := IsRateLimited(Limiter(LimitFor(endpoint), WindowMs, store), RateKey(ip, endpoint), now);
            Limited(store, ip, endpoint, now) == (r.0.attempts, r.1)
  {
  }
}
