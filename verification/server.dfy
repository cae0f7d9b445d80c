/** The server as a whole: the shared database, the route file on disk,
    the start-up sequence (seed, then regenerate the routes) and the request
    handlers wired to them. The resolution middleware runs in front of the
    tenant handlers; every successful meta-admin write is followed by a
    regeneration of the route file. */
module Server {
  import opened Js
  import Text
  import Tenants
  import AccessLog
  import Seeding
  import Resolver
  import Auth
  import MetaAdmin
  import Routes

  /** What the last regeneration wrote the route file from: the companies
      and the instant. The file's text is `Routes.RenderFile` of these. */
  datatype RoutesWrite = RoutesWrite(table: Tenants.Table, stamp: string)

  /** The text of the route file a write leaves on disk. */
  function RoutesFile(w: RoutesWrite): string {
    Routes.RenderFile(w.table, Routes.SystemDomains, w.stamp)
  }

  /** The database and the last route-file write (`None`: never written). */
  datatype State = State(db: Seeding.Db, lastWrite: Option<RoutesWrite>)

  predicate Valid(s: State) {
    Seeding.DbValid(s.db)
  }

  /** In production the route file on disk was written from the companies
      as they are now. */
  predicate RoutesCurrent(production: bool, s: State) {
    production ==> s.lastWrite.Some? && s.lastWrite.value.table.rows == s.db.companies.rows
  }

  /** A current route file lists every active tenant. */
  lemma CurrentFileListsActiveTenants(s: State)
    requires RoutesCurrent(true, s)
    ensures Routes.ListsActiveTenants(s.db.companies, RoutesFile(s.lastWrite.value))
  {
    var w := s.lastWrite.value;
    SameRowsSameListing(w.table, s.db.companies, RoutesFile(w));
  }

  lemma SameRowsSameListing(t: Tenants.Table, t': Tenants.Table, doc: string)
    requires t.rows == t'.rows && Routes.ListsActiveTenants(t, doc)
    ensures Routes.ListsActiveTenants(t', doc)
  {
  }

  /** `updateTraefikRoutes()`: in production the file is rewritten from the
      current companies, exactly as `Routes.UpdateRoutes` renders it; in
      development it is left as it is. */
  function Regenerate(production: bool, s: State, stamp: string): (s': State)
    ensures s'.db == s.db
    ensures !production ==> s' == s
    ensures production ==> s'.lastWrite == Some(RoutesWrite(s.db.companies, stamp))
    ensures RoutesCurrent(production, s')
  {
    if production then s.(lastWrite := Some(RoutesWrite(s.db.companies, stamp))) else s
  }

  /** The file `Regenerate` writes is the one `updateTraefikRoutes` renders. */
  lemma RegenerateWritesRenderedFile(s: State, stamp: string)
    ensures Some(RoutesFile(Regenerate(true, s, stamp).lastWrite.value)) ==
      Routes.UpdateRoutes(true, s.db.companies, stamp)
  {
  }

  /** The start-up sequence: `fillInitDb()`, then `updateTraefikRoutes()`. */
  function Startup(production: bool, s: State, clock: Seeding.Clock, stamp: string): (r: (Seeding.Seeded, State))
    requires Valid(s) && Seeding.ClockFits(clock)
    ensures r.0 == Seeding.Seed(s.db, clock)
    ensures Valid(r.1) && r.1.db == r.0.db
    ensures RoutesCurrent(production, r.1)
    ensures !production ==> r.1.lastWrite == s.lastWrite
    ensures r.0.dev in r.1.db.companies.rows && r.0.prod in r.1.db.companies.rows
  {
    var seeded := Seeding.Seed(s.db, clock);
    (seeded, Regenerate(production, s.(db := seeded.db), stamp))
  }

  /** On an empty database in production, start-up routes both seeded
      tenants. */
  lemma FreshStartRoutesBothTenants(clock: Seeding.Clock, stamp: string)
    requires Seeding.ClockFits(clock)
    ensures var (_, s) := Startup(true, State(Seeding.EmptyDb, None), clock, stamp);
      && s.lastWrite.Some?
      && var file := RoutesFile(s.lastWrite.value);
      && Text.Contains(file, Routes.NameLine(Routes.FrontendName(Seeding.DevDomain)))
      && Text.Contains(file, Routes.NameLine(Routes.ApiName(Seeding.DevDomain)))
      && Text.Contains(file, Routes.NameLine(Routes.FrontendName(Seeding.ProdDomain)))
      && Text.Contains(file, Routes.NameLine(Routes.ApiName(Seeding.ProdDomain)))
  {
    var (seeded, s) := Startup(true, State(Seeding.EmptyDb, None), clock, stamp);
    Seeding.SeedingEmptyDatabase(clock);
    assert seeded.dev.status == Tenants.Active && seeded.prod.status == Tenants.Active;
    CurrentFileListsActiveTenants(s);
  }

  // ---------------------------------------------------------------------
  // The CORS middleware

  /** A request's fate at the CORS middleware, which runs before everything
      else: refused (the callback's error reaches Express's default handler,
      which answers 500, and no handler runs) or passed on to the handler,
      whose reply it carries. */
  datatype Outcome<T> = CorsRefused | Passed(reply: T)
  {
    function Status(status: T -> nat): nat {
      if CorsRefused? then 500 else status(reply)
    }
  }

  predicate Admitted(production: bool, origin: Option<string>, s: State)
    requires Valid(s)
  {
    Resolver.CorsAllows(production, origin, s.db.companies)
  }

  // ---------------------------------------------------------------------
  // Tenant requests

  /** The answer to a tenant request: 400 from the middleware, or the
      handler's own reply. */
  datatype TenantReply =
    | HeaderMissing
    | LoginAnswer(login: Auth.LoginReply)
    | LogsAnswer(logs: Auth.LogsReply)

  /** The HTTP status of a tenant reply. */
  function TenantStatus(a: TenantReply): nat {
    match a
    case HeaderMissing => 400
    case LoginAnswer(login) => login.Status()
    case LogsAnswer(logs) => logs.Status()
  }

  /** The HTTP status of a meta-admin reply. */
  function MetaStatus(a: MetaAdmin.Reply): nat {
    a.Status()
  }

  /** `req.company` as the handler sees it; a request the middleware let
      through without resolving carries none. */
  function Tenant(r: Resolver.Resolution): Option<Tenants.Company> {
    if r.Resolved? then r.tenant else None
  }

  /** `POST /api/login` behind the CORS check and the resolution
      middleware. */
  function LoginRequest(production: bool, req: Resolver.Request, name: Field, password: Field,
                        client: Auth.Client, now: int, s: State): (r: (Outcome<TenantReply>, State))
    requires Valid(s)
    ensures Valid(r.1)
    ensures r.0.CorsRefused? <==> !Admitted(production, req.origin, s)
    ensures r.0.Status(TenantStatus) == 500 <==> !Admitted(production, req.origin, s)
    ensures r.0 == Passed(HeaderMissing) <==>
      Admitted(production, req.origin, s) &&
      Resolver.Resolve(production, req, s.db.companies) == Resolver.MissingHeader
    ensures r.0.CorsRefused? || r.0 == Passed(HeaderMissing) ==> r.1 == s
    ensures r.0.Passed? && r.0.reply.LoginAnswer? ==>
      && Resolver.Resolve(production, req, s.db.companies) != Resolver.MissingHeader
      && (r.0.reply.login, r.1.db.logs) ==
         Auth.Login(Tenant(Resolver.Resolve(production, req, s.db.companies)), name, password, client, now, s.db.logs)
    ensures r.1.db.companies == s.db.companies && r.1.db.metaUsers == s.db.metaUsers
    ensures r.1.lastWrite == s.lastWrite
    ensures s.db.logs.rows <= r.1.db.logs.rows && |r.1.db.logs.rows| <= |s.db.logs.rows| + 1
  {
    if !Admitted(production, req.origin, s) then (CorsRefused, s)
    else
      var res := Resolver.Resolve(production, req, s.db.companies);
      if res == Resolver.MissingHeader then (Passed(HeaderMissing), s)
      else
        var (reply, logs) := Auth.Login(Tenant(res), name, password, client, now, s.db.logs);
        (Passed(LoginAnswer(reply)), s.(db := s.db.(logs := logs)))
  }

  /** `GET /api/logs` behind the CORS check and the resolution middleware. */
  function LogsRequest(production: bool, req: Resolver.Request, s: State): (r: Outcome<TenantReply>)
    requires Valid(s)
    ensures r.CorsRefused? <==> !Admitted(production, req.origin, s)
    ensures r.Status(TenantStatus) == 500 <==> !Admitted(production, req.origin, s)
    ensures r == Passed(HeaderMissing) <==>
      Admitted(production, req.origin, s) &&
      Resolver.Resolve(production, req, s.db.companies) == Resolver.MissingHeader
    ensures r.Passed? && r.reply.LogsAnswer? ==>
      r.reply.logs == Auth.Logs(Tenant(Resolver.Resolve(production, req, s.db.companies)), s.db.logs)
    ensures r.Passed? && r.reply.LogsAnswer? && r.reply.logs.LogPage? ==>
      var c := Tenant(Resolver.Resolve(production, req, s.db.companies));
      && c.Some? && c.value in s.db.companies.rows
      && forall e :: e in r.reply.logs.rows ==> e in s.db.logs.rows && e.companyId == c.value.id
  {
    if !Admitted(production, req.origin, s) then CorsRefused
    else
      var res := Resolver.Resolve(production, req, s.db.companies);
      if res == Resolver.MissingHeader then Passed(HeaderMissing)
      else Passed(LogsAnswer(Auth.Logs(Tenant(res), s.db.logs)))
  }

  /** In development the CORS check admits only origins that mention
      `localhost` or `127.0.0.1`, which the middleware then serves as the
      `localhost` tenant: no other tenant can be signed in to, and the
      middleware's branch for other origins is never reached. */
  lemma DevelopmentServesOnlyLocalhost(req: Resolver.Request, name: Field, password: Field,
                                       client: Auth.Client, now: int, s: State)
    requires Valid(s) && !Text.StartsWith(req.path, Resolver.MetaPrefix)
    ensures var (r, _) := LoginRequest(false, req, name, password, client, now, s);
      r.Passed? && r.reply.LoginAnswer? ==>
        Resolver.Resolve(false, req, s.db.companies) ==
        Resolver.Resolved(Tenants.FindByDomain(s.db.companies, Resolver.LocalDomain))
  {
    var (r, _) := LoginRequest(false, req, name, password, client, now, s);
    if r.Passed? && r.reply.LoginAnswer? {
      assert Present(req.origin);
      assert Resolver.IsLoopback(req.origin.value);
      assert Resolver.DevKey(req.origin.value) == Resolver.LocalDomain;
    }
  }

  /** In production the administrator signing in at a tenant's host, with or
      without a port, is authenticated for that tenant, and the attempt is
      logged against that tenant as a success. */
  lemma ProductionLoginLandsOnTenant(s: State, c: Tenants.Company, port: string, client: Auth.Client, now: int)
    requires Valid(s) && c in s.db.companies.rows
    requires c.domain != "" && ':' !in c.domain
    requires forall i :: 0 <= i < |port| ==> '0' <= port[i] <= '9'
    requires !Text.StartsWith(c.domain, Text.Http) && !Text.StartsWith(c.domain, Text.Https)
    ensures var req := Resolver.TenantRequest(None, None, Some(c.domain + ":" + port));
      var (reply, s') := LoginRequest(true, req, Str(Auth.AdminName), Str(Auth.AdminPassword), client, now, s);
      && reply == Passed(LoginAnswer(Auth.Authenticated(Auth.AdminName, c)))
      && |s'.db.logs.rows| == |s.db.logs.rows| + 1
      && s'.db.logs.rows[|s.db.logs.rows|].companyId == c.id
      && s'.db.logs.rows[|s.db.logs.rows|].success
  {
    var req := Resolver.TenantRequest(None, None, Some(c.domain + ":" + port));
    assert Resolver.Resolve(true, req, s.db.companies) == Resolver.Resolved(Some(c)) by {
      Resolver.ProductionReachesEveryTenant(s.db.companies, c, port, None);
    }
    AdminLoginLogged(c, client, now, s.db.logs);
  }

  lemma AdminLoginLogged(c: Tenants.Company, client: Auth.Client, now: int, logs: AccessLog.Table)
    requires AccessLog.Valid(logs)
    ensures var (reply, logs') := Auth.Login(Some(c), Str(Auth.AdminName), Str(Auth.AdminPassword), client, now, logs);
      && reply == Auth.Authenticated(Auth.AdminName, c)
      && |logs'.rows| == |logs.rows| + 1
      && logs'.rows[|logs.rows|].companyId == c.id
      && logs'.rows[|logs.rows|].success
  {
  }

  /** In production a tenant's log page, asked for at its own host, holds
      only that tenant's attempts. */
  lemma ProductionLogsStayWithTenant(s: State, c: Tenants.Company)
    requires Valid(s) && c in s.db.companies.rows
    requires c.domain != "" && ':' !in c.domain
    requires !Text.StartsWith(c.domain, Text.Http) && !Text.StartsWith(c.domain, Text.Https)
    ensures var r := LogsRequest(true, Resolver.TenantRequest(None, None, Some(c.domain)), s);
      && r.Passed? && r.reply.LogsAnswer? && r.reply.logs.LogPage?
      && forall e :: e in r.reply.logs.rows ==> e in s.db.logs.rows && e.companyId == c.id
  {
    Resolver.ProductionReachesEveryTenant(s.db.companies, c, "", None);
  }

  // ---------------------------------------------------------------------
  // Meta-admin requests

  /** The route file after a meta-admin reply: regenerated after a write,
      untouched after a refusal or an error. */
  function AfterReply(production: bool, reply: MetaAdmin.Reply, s: State, stamp: string): (s': State)
    ensures s'.db == s.db
    ensures !reply.Mutated() ==> s' == s
    ensures reply.Mutated() ==> RoutesCurrent(production, s') && (!production ==> s' == s)
  {
    if reply.Mutated() then Regenerate(production, s, stamp) else s
  }

  /** `POST /api/meta/companies` behind the CORS check, then the route
      regeneration. */
  function CreateRequest(production: bool, origin: Option<string>, cookie: Option<string>,
                         body: MetaAdmin.CompanyBody, now: int, stamp: string, s: State): (r: (Outcome<MetaAdmin.Reply>, State))
    requires Valid(s)
    ensures Valid(r.1)
    ensures r.0.CorsRefused? <==> !Admitted(production, origin, s)
    ensures !Admitted(production, origin, s) ==> r.0.Status(MetaStatus) == 500
    ensures r.0.CorsRefused? ==> r.1 == s
    ensures r.0.Passed? ==>
      (r.0.reply, r.1.db.companies) == MetaAdmin.Create(cookie, body, now, s.db.companies)
    ensures r.1.db.logs == s.db.logs && r.1.db.metaUsers == s.db.metaUsers
    ensures !(r.0.Passed? && r.0.reply.Created?) ==> r.1.lastWrite == s.lastWrite
    ensures RoutesCurrent(production, s) ==> RoutesCurrent(production, r.1)
  {
    if !Admitted(production, origin, s) then (CorsRefused, s)
    else
      var (reply, companies) := MetaAdmin.Create(cookie, body, now, s.db.companies);
      (Passed(reply), AfterReply(production, reply, s.(db := s.db.(companies := companies)), stamp))
  }

  /** In production a tenant created through the meta-admin API is routed
      at once: the rewritten file has both of its routers. */
  lemma CreatedTenantIsRouted(origin: Option<string>, cookie: Option<string>, body: MetaAdmin.CompanyBody,
                              now: int, stamp: string, s: State)
    requires Valid(s)
    ensures var (reply, s') := CreateRequest(true, origin, cookie, body, now, stamp, s);
      reply.Passed? && reply.reply.Created? ==>
        && s'.lastWrite.Some?
        && Text.Contains(RoutesFile(s'.lastWrite.value), Routes.NameLine(Routes.FrontendName(body.domain.s)))
        && Text.Contains(RoutesFile(s'.lastWrite.value), Routes.NameLine(Routes.ApiName(body.domain.s)))
  {
    var (reply, s') := CreateRequest(true, origin, cookie, body, now, stamp, s);
    if reply.Passed? && reply.reply.Created? {
      assert reply.reply.company in s'.db.companies.rows;
      CurrentFileListsActiveTenants(s');
    }
  }

  /** `PUT /api/meta/companies/:id` behind the CORS check, then the route
      regeneration. */
  function UpdateRequest(production: bool, origin: Option<string>, cookie: Option<string>, id: nat,
                         body: MetaAdmin.CompanyBody, now: int, stamp: string, s: State): (r: (Outcome<MetaAdmin.Reply>, State))
    requires Valid(s)
    ensures Valid(r.1)
    ensures r.0.CorsRefused? <==> !Admitted(production, origin, s)
    ensures !Admitted(production, origin, s) ==> r.0.Status(MetaStatus) == 500
    ensures r.0.Passed? ==>
      (r.0.reply, r.1.db.companies) == MetaAdmin.Update(cookie, id, body, now, s.db.companies)
    ensures r.1.db.logs == s.db.logs && r.1.db.metaUsers == s.db.metaUsers
    ensures !(r.0.Passed? && r.0.reply.Updated?) ==> r.1 == s
    ensures RoutesCurrent(production, s) ==> RoutesCurrent(production, r.1)
  {
    if !Admitted(production, origin, s) then (CorsRefused, s)
    else
      var (reply, companies) := MetaAdmin.Update(cookie, id, body, now, s.db.companies);
      (Passed(reply), AfterReply(production, reply, s.(db := s.db.(companies := companies)), stamp))
  }

  /** `DELETE /api/meta/companies/:id` behind the CORS check, then the
      route regeneration. */
  function DeleteRequest(production: bool, origin: Option<string>, cookie: Option<string>, id: nat,
                         stamp: string, s: State): (r: (Outcome<MetaAdmin.Reply>, State))
    requires Valid(s)
    ensures Valid(r.1)
    ensures r.0.CorsRefused? <==> !Admitted(production, origin, s)
    ensures !Admitted(production, origin, s) ==> r.0.Status(MetaStatus) == 500
    ensures r.0.Passed? ==>
      (r.0.reply, r.1.db.companies) == MetaAdmin.Delete(cookie, id, s.db.companies)
    ensures r.1.db.logs == s.db.logs && r.1.db.metaUsers == s.db.metaUsers
    ensures !(r.0.Passed? && r.0.reply.Deleted?) ==> r.1 == s
    ensures RoutesCurrent(production, s) ==> RoutesCurrent(production, r.1)
  {
    if !Admitted(production, origin, s) then (CorsRefused, s)
    else
      var (reply, companies) := MetaAdmin.Delete(cookie, id, s.db.companies);
      (Passed(reply), AfterReply(production, reply, s.(db := s.db.(companies := companies)), stamp))
  }

  // ---------------------------------------------------------------------
  // Any sequence of requests

  /** One request of any kind, with the instants it reads. */
  datatype Request =
    | TenantLogin(req: Resolver.Request, name: Field, password: Field, client: Auth.Client, now: int)
    | TenantLogs(req: Resolver.Request)
    | MetaLogin(origin: Option<string>, username: Field, password: Field)
    | MetaList(origin: Option<string>, cookie: Option<string>)
    | MetaCreate(origin: Option<string>, cookie: Option<string>, body: MetaAdmin.CompanyBody, now: int, stamp: string)
    | MetaUpdate(origin: Option<string>, cookie: Option<string>, id: nat, body: MetaAdmin.CompanyBody, now: int, stamp: string)
    | MetaDelete(origin: Option<string>, cookie: Option<string>, id: nat, stamp: string)

  /** The state after one request. */
  function Handle(production: bool, s: State, q: Request): (s': State)
    requires Valid(s)
    ensures Valid(s')
    ensures s.db.logs.rows <= s'.db.logs.rows
    ensures s'.db.metaUsers == s.db.metaUsers
    ensures RoutesCurrent(production, s) ==> RoutesCurrent(production, s')
  {
    match q
    case TenantLogin(req, name, password, client, now) =>
      LoginRequest(production, req, name, password, client, now, s).1
    case TenantLogs(_) => s
    case MetaLogin(_, _, _) => s
    case MetaList(_, _) => s
    case MetaCreate(origin, cookie, body, now, stamp) =>
      CreateRequest(production, origin, cookie, body, now, stamp, s).1
    case MetaUpdate(origin, cookie, id, body, now, stamp) =>
      UpdateRequest(production, origin, cookie, id, body, now, stamp, s).1
    case MetaDelete(origin, cookie, id, stamp) =>
      DeleteRequest(production, origin, cookie, id, stamp, s).1
  }

  /** The state after a sequence of requests, served one after another:
      the schema's constraints hold throughout (in particular no two
      tenants share a domain), log rows are only ever appended, the
      meta-admin accounts are never touched, and a route file that lists
      every active tenant keeps doing so. */
  function Serve(production: bool, s: State, qs: seq<Request>): (s': State)
    requires Valid(s)
    ensures Valid(s')
    ensures s.db.logs.rows <= s'.db.logs.rows
    ensures s'.db.metaUsers == s.db.metaUsers
    ensures RoutesCurrent(production, s) ==> RoutesCurrent(production, s')
    decreases |qs|
  {
    if |qs| == 0 then s
    else
      var s1 := Handle(production, s, qs[0]);
      var s' := Serve(production, s1, qs[1..]);
      PrefixTransitive(s.db.logs.rows, s1.db.logs.rows, s'.db.logs.rows);
      s'
  }

  lemma PrefixTransitive<T>(a: seq<T>, b: seq<T>, c: seq<T>)
    requires a <= b && b <= c
    ensures a <= c
  {
    assert a == b[..|a|] && b == c[..|b|];
    assert c[..|b|][..|a|] == c[..|a|];
  }
}
