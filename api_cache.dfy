/**
 * The cache administration endpoint (`app/routes/api.cache.ts`): a status
 * report (`loader`, GET) and an invalidation trigger (`action`, POST), each
 * guarded by the request method, its headers and the server environment.
 */
module CacheAdmin {
  import opened Wrappers
  import opened Cache

  /** The environment variables the endpoint reads; `None` is an unset variable. */
  datatype Environment = Environment(
    nodeEnv: Option<string>,
    adminApiKey: Option<string>,
    crawlerWebhookSecret: Option<string>)

  /** The parts of the request the endpoint reads; `None` is a missing header. */
  datatype Request = Request(
    httpMethod: string,
    authorization: Option<string>,
    webhookSecret: Option<string>)

  datatype Response =
    | Status(code: int)
    | CacheStatus(info: CacheInfo)
    | Invalidated(before: CacheInfo, after: CacheInfo)

  predicate IsProduction(env: Environment) {
    env.nodeEnv == Some("production")
  }

  /** `Bearer ${process.env.ADMIN_API_KEY}`; an unset key is rendered as the text "undefined". */
  function ExpectedBearer(env: Environment): (r: string)
    ensures |r| >= 7 && r[..7] == "Bearer "
    ensures env.adminApiKey.Some? ==> r[7..] == env.adminApiKey.value
    ensures env.adminApiKey.None? ==> r == "Bearer undefined"
  {
    "Bearer " + (if env.adminApiKey.Some? then env.adminApiKey.value else "undefined")
  }

  /**
   * `webhookSecret === process.env.CRAWLER_WEBHOOK_SECRET`: a missing header is
   * `null` and an unset variable `undefined`, and the two are not identical.
   */
  function WebhookMatches(req: Request, env: Environment): (same: bool)
    ensures same <==> (req.webhookSecret.Some? && req.webhookSecret == env.crawlerWebhookSecret)
    ensures req.webhookSecret.None? ==> !same
    ensures env.crawlerWebhookSecret.None? ==> !same
  {
    req.webhookSecret.Some? && env.crawlerWebhookSecret.Some?
    && req.webhookSecret.value == env.crawlerWebhookSecret.value
  }

  /** How an accepted invalidation request got through. */
  datatype Grant = NotChecked | ByWebhook | ByAdminKey

  datatype Decision = MethodNotAllowed | Unauthorized | Allowed(grant: Grant)

  /**
   * The decision table of `action`: the method is checked first, then, in
   * production only, the crawler secret before the administrator key.
   */
  function ActionDecision(req: Request, env: Environment): (d: Decision)
    ensures d == MethodNotAllowed <==> req.httpMethod != "POST"
    ensures d == Allowed(NotChecked) <==> req.httpMethod == "POST" && !IsProduction(env)
    ensures d == Allowed(ByWebhook) <==> req.httpMethod == "POST" && IsProduction(env) && WebhookMatches(req, env)
    ensures d == Allowed(ByAdminKey) <==>
      req.httpMethod == "POST" && IsProduction(env) && !WebhookMatches(req, env)
      && req.authorization == Some(ExpectedBearer(env))
    ensures d == Unauthorized <==>
      req.httpMethod == "POST" && IsProduction(env) && !WebhookMatches(req, env)
      && req.authorization != Some(ExpectedBearer(env))
  {
    if req.httpMethod != "POST" then MethodNotAllowed
    else if !IsProduction(env) then Allowed(NotChecked)
    else if WebhookMatches(req, env) then Allowed(ByWebhook)
    else if req.authorization == Some(ExpectedBearer(env)) then Allowed(ByAdminKey)
    else Unauthorized
  }

  /**
   * `loader` lets a request through outside production, or with exactly the
   * administrator bearer: the missing-or-empty test adds nothing to the
   * comparison with the bearer text.
   */
  predicate LoaderAuthorized(req: Request, env: Environment): (ok: bool)
    ensures ok <==> !IsProduction(env) || req.authorization == Some(ExpectedBearer(env))
  {
    !IsProduction(env)
    || (req.authorization.Some? && req.authorization.value != "" && req.authorization.value == ExpectedBearer(env))
  }

  /**
   * With ADMIN_API_KEY unset, production accepts the literal header
   * "Bearer undefined", for the status report and for invalidation.
   */
  lemma UnsetAdminKeyAcceptsUndefinedBearer(env: Environment, httpMethod: string)
    requires IsProduction(env) && env.adminApiKey.None?
    ensures LoaderAuthorized(Request(httpMethod, Some("Bearer undefined"), None), env)
    ensures httpMethod == "POST" ==> ActionDecision(Request(httpMethod, Some("Bearer undefined"), None), env) == Allowed(ByAdminKey)
  {
  }

  /** In production a request carrying neither header is refused, even when both secrets are unset. */
  lemma NoCredentialsRefused(env: Environment)
    requires IsProduction(env)
    ensures ActionDecision(Request("POST", None, None), env) == Unauthorized
    ensures !LoaderAuthorized(Request("GET", None, None), env)
  {
  }

  /** `loader`: the cache status, or 401; the cache is only read. */
  method Loader(cache: ResponseCache, req: Request, env: Environment, now: int) returns (resp: Response)
    requires cache.Valid()
    ensures !LoaderAuthorized(req, env) ==> resp == Status(401)
    ensures LoaderAuthorized(req, env) ==> resp == CacheStatus(cache.Info(now))
  {
    if IsProduction(env) {
      var authHeader := req.authorization;
      if authHeader.None? || authHeader.value == "" || authHeader.value != ExpectedBearer(env) {
        return Status(401);
      }
    }
    resp := CacheStatus(cache.Info(now));
  }

  /**
   * `action`: 405 for a method other than POST and 401 for a refused
   * production request, both without touching the cache; otherwise the
   * cache is cleared and the snapshots before and after are reported.
   */
  method Action(cache: ResponseCache, req: Request, env: Environment, now: int) returns (resp: Response)
    requires cache.Valid()
    modifies cache
    ensures cache.Valid()
    ensures ActionDecision(req, env) == MethodNotAllowed ==> resp == Status(405) && unchanged(cache)
    ensures ActionDecision(req, env) == Unauthorized ==> resp == Status(401) && unchanged(cache)
    ensures ActionDecision(req, env).Allowed? ==> cache.entries == map[] && cache.order == []
    ensures ActionDecision(req, env).Allowed? ==> resp == Invalidated(old(cache.Info(now)), cache.Info(now))
  {
    if req.httpMethod != "POST" {
      return Status(405);
    }
    if IsProduction(env) {
      if WebhookMatches(req, env) {
        // the crawler's webhook
      } else if req.authorization == Some(ExpectedBearer(env)) {
        // an administrator
      } else {
        return Status(401);
      }
    }
    var before := cache.Info(now);
    cache.InvalidateCache();
    var after := cache.Info(now);
    resp := Invalidated(before, after);
  }

  /** The `after` snapshot of an accepted invalidation: neither key cached, nothing counted. */
  lemma AfterSnapshotIsEmpty(cache: ResponseCache, now: int)
    requires cache.Valid() && cache.entries == map[] && cache.order == []
    ensures cache.Info(now).jobs == KeyStatus(false, None, 0)
    ensures cache.Info(now).companies == KeyStatus(false, None, 0)
    ensures cache.Info(now).totalCacheSize == 0 && cache.Info(now).cacheKeys == []
  {
  }
}
