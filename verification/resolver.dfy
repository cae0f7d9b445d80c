/** The middleware that attaches a tenant to every request outside the
    meta-admin API, and the CORS origin check that runs before it. In
    development the tenant comes from the `Origin` header; in production from
    `X-Company-Domain`, falling back to `Host`. */
module Resolver {
  import opened Js
  import Text
  import Tenants

  /** The parts of a request the middleware reads. */
  datatype Request = Request(
    path: string,
    origin: Option<string>,
    companyDomain: Option<string>,
    host: Option<string>)

  datatype Resolution =
    | Bypassed                                  // meta-admin API: no tenant
    | MissingHeader                             // answered with 400
    | Resolved(tenant: Option<Tenants.Company>) // `req.company`, maybe absent

  const MetaPrefix := "/api/meta/"

  /** The tenant every loopback origin is served as in development. */
  const LocalDomain := "localhost"

  predicate IsLoopback(origin: string) {
    Text.Includes(origin, "localhost") || Text.Includes(origin, "127.0.0.1")
  }

  /** Development lookup key: loopback origins collapse to `localhost`; any
      other origin loses its scheme but keeps its port. */
  function DevKey(origin: string): (k: string)
    ensures Text.Contains(origin, "localhost") || Text.Contains(origin, "127.0.0.1") ==> k == LocalDomain
    ensures !Text.Contains(origin, "localhost") && !Text.Contains(origin, "127.0.0.1") ==>
      k == Text.StripScheme(origin)
  {
    if IsLoopback(origin) then LocalDomain else Text.StripScheme(origin)
  }

  /** `req.headers['x-company-domain'] || req.headers.host`. */
  function ProdHeader(req: Request): (h: Option<string>)
    ensures Present(req.companyDomain) ==> h == req.companyDomain
    ensures !Present(req.companyDomain) ==> h == req.host
  {
    if Present(req.companyDomain) then req.companyDomain else req.host
  }

  /** Production lookup key: scheme stripped, everything from the first colon
      cut. */
  function ProdKey(value: string): (k: string)
    ensures ':' !in k
    ensures Text.StartsWith(Text.StripScheme(value), k)
    ensures k == Text.StripScheme(value) || Text.StripScheme(value)[|k|] == ':'
  {
    Text.BeforeColon(Text.StripScheme(value))
  }

  /** The middleware. */
  function Resolve(production: bool, req: Request, t: Tenants.Table): (r: Resolution)
    ensures Text.StartsWith(req.path, MetaPrefix) <==> r == Bypassed
    ensures !Text.StartsWith(req.path, MetaPrefix) && !production ==>
      (r == MissingHeader <==> !Present(req.origin)) &&
      (Present(req.origin) ==> r == Resolved(Tenants.FindByDomain(t, DevKey(req.origin.value))))
    ensures !Text.StartsWith(req.path, MetaPrefix) && production ==>
      (r == MissingHeader <==> !Present(ProdHeader(req))) &&
      (Present(ProdHeader(req)) ==> r == Resolved(Tenants.FindByDomain(t, ProdKey(ProdHeader(req).value))))
    ensures r.Resolved? && r.tenant.Some? ==> r.tenant.value in t.rows
  {
    if Text.StartsWith(req.path, MetaPrefix) then Bypassed
    else if !production then
      if !Present(req.origin) then MissingHeader
      else Resolved(Tenants.FindByDomain(t, DevKey(req.origin.value)))
    else
      var h := ProdHeader(req);
      if !Present(h) then MissingHeader
      else Resolved(Tenants.FindByDomain(t, ProdKey(h.value)))
  }

  /** A tenant-scoped request (not under the meta-admin prefix). */
  function TenantRequest(origin: Option<string>, companyDomain: Option<string>, host: Option<string>): (req: Request)
    ensures !Text.StartsWith(req.path, MetaPrefix)
  {
    var path := "/api/login";
    assert path[5] != MetaPrefix[5];
    Request(path, origin, companyDomain, host)
  }

  /** In production every tenant is reached through its own `Host`, with or
      without a port, and through `X-Company-Domain` whatever `Host` says. */
  lemma ProductionReachesEveryTenant(t: Tenants.Table, c: Tenants.Company, port: string, host: Option<string>)
    requires Tenants.Valid(t) && c in t.rows
    requires c.domain != "" && ':' !in c.domain
    requires forall i :: 0 <= i < |port| ==> '0' <= port[i] <= '9'
    requires !Text.StartsWith(c.domain, Text.Http) && !Text.StartsWith(c.domain, Text.Https)
    ensures Resolve(true, TenantRequest(None, None, Some(c.domain)), t) == Resolved(Some(c))
    ensures Resolve(true, TenantRequest(None, None, Some(c.domain + ":" + port)), t) == Resolved(Some(c))
    ensures Resolve(true, TenantRequest(None, Some(c.domain), host), t) == Resolved(Some(c))
  {
    Tenants.FindByDomainUnique(t, c);
    Text.BeforeColonOfHostPort(c.domain, port);
    Text.NoSchemeWithPort(c.domain, port);
  }

  /** With a scheme in front, a production key is still the bare domain. */
  lemma ProductionStripsScheme(t: Tenants.Table, c: Tenants.Company)
    requires Tenants.Valid(t) && c in t.rows
    requires ':' !in c.domain
    ensures Resolve(true, TenantRequest(None, Some(Text.Https + c.domain), None), t) == Resolved(Some(c))
    ensures Resolve(true, TenantRequest(None, None, Some(Text.Http + c.domain)), t) == Resolved(Some(c))
  {
    Tenants.FindByDomainUnique(t, c);
    Text.StripSchemeInvertsHttp(c.domain);
    Text.BeforeColonOfHostPort(c.domain, "");
  }

  /** In development any origin mentioning `localhost` or `127.0.0.1`
      anywhere is served as the `localhost` tenant, whatever its real host. */
  lemma DevelopmentLoopbackIsLocalhost(t: Tenants.Table, origin: string)
    requires Text.Contains(origin, "localhost") || Text.Contains(origin, "127.0.0.1")
    ensures Resolve(false, TenantRequest(Some(origin), None, None), t) ==
      Resolved(Tenants.FindByDomain(t, LocalDomain))
  {
  }

  /** In development a non-loopback origin keeps its port in the lookup key,
      so `http://<domain>:<port>` looks up `<domain>:<port>`, not `<domain>`. */
  lemma DevelopmentKeepsPort(t: Tenants.Table, host: string, port: string)
    requires !Text.Contains(Text.Http + host + ":" + port, "localhost")
    requires !Text.Contains(Text.Http + host + ":" + port, "127.0.0.1")
    ensures Resolve(false, TenantRequest(Some(Text.Http + host + ":" + port), None, None), t) ==
      Resolved(Tenants.FindByDomain(t, host + ":" + port))
  {
    assert Text.Http + host + ":" + port == Text.Http + (host + ":" + port);
    Text.StripSchemeInvertsHttp(host + ":" + port);
  }

  /** Origins the production CORS check admits without a lookup. */
  const CorsSystemDomains := ["api.justcreatedsite.ru", "meta.justcreatedsite.ru", "traefik.justcreatedsite.ru"]

  /** The CORS `origin` callback: does the request's `Origin` get through? */
  function CorsAllows(production: bool, origin: Option<string>, t: Tenants.Table): (ok: bool)
    requires Tenants.Valid(t)
    ensures !Present(origin) ==> ok
    ensures !production && Present(origin) ==> (ok <==> IsLoopback(origin.value))
    ensures production && Present(origin) ==>
      var d := Text.StripScheme(origin.value);
      ok <==> d in CorsSystemDomains ||
              exists c :: c in t.rows && c.domain == d && c.status == Tenants.Active
  {
    if !Present(origin) then true
    else if !production then IsLoopback(origin.value)
    else
      var d := Text.StripScheme(origin.value);
      var found := Tenants.FindByDomain(t, d);
      assert (exists c :: c in t.rows && c.domain == d && c.status == Tenants.Active) ==>
        found.Some? && found.value.status == Tenants.Active by {
        if exists c :: c in t.rows && c.domain == d && c.status == Tenants.Active {
          var c :| c in t.rows && c.domain == d && c.status == Tenants.Active;
          Tenants.FindByDomainUnique(t, c);
        }
      }
      d in CorsSystemDomains || (found.Some? && found.value.status == Tenants.Active)
  }
}
