/** `updateTraefikRoutes`: the reverse-proxy routing file generated from the
    active tenants. The routers are collected in a JavaScript object, so a
    router name assigned twice keeps its first position and its last value;
    the table below is that object, a sequence of entries with distinct
    names. None of the names is an array index, so `Object.entries` lists
    them in insertion order. */
module Routes {
  import opened Js
  import Text
  import Tenants

  datatype Router = Router(rule: string, service: string)

  datatype Entry = Entry(name: string, router: Router)

  type RouteTable = seq<Entry>

  /** Every router requests the same certificate resolver and entry point. */
  const CertResolver := "letsencrypt"
  const EntryPoint := "websecure"

  function Names(t: RouteTable): seq<string> {
    seq(|t|, i requires 0 <= i < |t| => t[i].name)
  }

  predicate DistinctNames(t: RouteTable) {
    forall i, j :: 0 <= i < j < |t| ==> t[i].name != t[j].name
  }

  /** `routes[name]`. */
  function Lookup(t: RouteTable, name: string): (r: Option<Router>)
    ensures r.Some? <==> name in Names(t)
    ensures r.Some? ==> Entry(name, r.value) in t
  {
    if |t| == 0 then None
    else if t[0].name == name then
      assert Names(t)[0] == name;
      Some(t[0].router)
    else
      assert Names(t) == [t[0].name] + Names(t[1..]);
      Lookup(t[1..], name)
  }

  /** `routes[name] = router`: an existing name keeps its position and gets
      the new value; a new name goes to the end. */
  function Assign(t: RouteTable, name: string, router: Router): (t': RouteTable)
    ensures name in Names(t) ==> Names(t') == Names(t)
    ensures name !in Names(t) ==> Names(t') == Names(t) + [name]
    decreases |t|
  {
    if |t| == 0 then [Entry(name, router)]
    else if t[0].name == name then
      var t' := [Entry(name, router)] + t[1..];
      assert Names(t') == [name] + Names(t[1..]);
      assert Names(t) == [t[0].name] + Names(t[1..]);
      t'
    else
      var rest := Assign(t[1..], name, router);
      assert Names(t) == [t[0].name] + Names(t[1..]);
      var t' := [t[0]] + rest;
      assert Names(t') == [t[0].name] + Names(rest);
      t'
  }

  /** After `routes[name] = router`, `name` maps to `router` and every other
      name to what it mapped to before. */
  lemma {:induction false} AssignLookup(t: RouteTable, name: string, router: Router, n: string)
    ensures Lookup(Assign(t, name, router), n) == if n == name then Some(router) else Lookup(t, n)
    decreases |t|
  {
    var t' := Assign(t, name, router);
    if |t| == 0 {
    } else if t[0].name == name {
      assert t'[1..] == t[1..];
    } else {
      AssignLookup(t[1..], name, router, n);
      assert t'[0] == t[0] && t'[1..] == Assign(t[1..], name, router);
    }
  }

  /** Assignment never duplicates a name. */
  lemma AssignKeepsDistinct(t: RouteTable, name: string, router: Router)
    requires DistinctNames(t)
    ensures DistinctNames(Assign(t, name, router))
  {
    var t' := Assign(t, name, router);
    forall i, j | 0 <= i < j < |t'| ensures t'[i].name != t'[j].name {
      assert Names(t')[i] == t'[i].name && Names(t')[j] == t'[j].name;
      if j == |t| {
        assert Names(t')[i] == Names(t)[i];
      }
    }
  }

  // ---------------------------------------------------------------------
  // Router names and rules

  /** `domain.replace(/\./g, '-')`. */
  function Dashed(domain: string): string {
    Text.DotsToDashes(domain)
  }

  const FrontendPrefix := "frontend-"
  const ApiPrefix := "api-"
  const SystemPrefix := "system-"

  function FrontendName(domain: string): string {
    FrontendPrefix + Dashed(domain)
  }

  function ApiName(domain: string): string {
    ApiPrefix + Dashed(domain)
  }

  /** Matches the domain and its `www.` form. */
  function HostRule(domain: string): string {
    "(Host(`" + domain + "`) || Host(`www." + domain + "`))"
  }

  /** Everything except `/api` goes to the front end. */
  function FrontendRouter(domain: string): Router {
    Router(HostRule(domain) + " && !PathPrefix(`/api`)", "frontend-service")
  }

  /** `/api` goes to the back end. */
  function ApiRouter(domain: string): Router {
    Router(HostRule(domain) + " && PathPrefix(`/api`)", "backend-service")
  }

  datatype SystemDomain = SystemDomain(domain: string, service: string)

  /** The meta-admin UI and the proxy dashboard. */
  const SystemDomains := [
    SystemDomain("meta.justcreatedsite.ru", "metaadmin-service"),
    SystemDomain("traefik.justcreatedsite.ru", "traefik-service")
  ]

  function SystemName(domain: string): string {
    SystemPrefix + Dashed(domain)
  }

  function SystemRouter(s: SystemDomain): Router {
    Router("Host(`" + s.domain + "`)", s.service)
  }

  // ---------------------------------------------------------------------
  // Building the table

  /** The two routers of one tenant, frontend first. */
  function AddTenant(t: RouteTable, c: Tenants.Company): RouteTable {
    Assign(Assign(t, FrontendName(c.domain), FrontendRouter(c.domain)), ApiName(c.domain), ApiRouter(c.domain))
  }

  /** `companies.forEach(...)`. */
  function AddTenants(t: RouteTable, cs: seq<Tenants.Company>): RouteTable
    decreases |cs|
  {
    if |cs| == 0 then t else AddTenants(AddTenant(t, cs[0]), cs[1..])
  }

  /** `systemDomains.forEach(...)`. */
  function AddSystems(t: RouteTable, ss: seq<SystemDomain>): RouteTable
    decreases |ss|
  {
    if |ss| == 0 then t
    else AddSystems(Assign(t, SystemName(ss[0].domain), SystemRouter(ss[0])), ss[1..])
  }

  /** `Company.findAll({ where: { status: 'active' }, order: [['createdAt', 'ASC']] })`. */
  function RoutedTenants(table: Tenants.Table): (cs: seq<Tenants.Company>)
    ensures forall i :: 0 <= i < |cs| ==> cs[i] in table.rows && cs[i].status == Tenants.Active
    ensures forall c :: c in table.rows && c.status == Tenants.Active ==> c in cs
    ensures forall i, j :: 0 <= i < j < |cs| ==> cs[i].createdAt <= cs[j].createdAt
    ensures |cs| == |Tenants.ActiveRows(table.rows)|
  {
    var active := Tenants.ActiveRows(table.rows);
    var cs := Tenants.ByCreation(active, false);
    SameMembers(cs, active);
    cs
  }

  lemma SameMembers<T>(a: seq<T>, b: seq<T>)
    requires multiset(a) == multiset(b)
    ensures |a| == |b|
    ensures forall i :: 0 <= i < |a| ==> a[i] in b
    ensures forall x :: x in b ==> x in a
  {
    assert |multiset(a)| == |multiset(b)|;
    forall i | 0 <= i < |a| ensures a[i] in b {
      assert a[i] in multiset(a);
    }
    forall x | x in b ensures x in a {
      assert x in multiset(b);
    }
  }

  /** The tenant part of the table, before the system routers. */
  function TenantRoutes(table: Tenants.Table): RouteTable {
    AddTenants([], RoutedTenants(table))
  }

  /** The table built with the system domains `ss`. */
  function BuildWith(table: Tenants.Table, ss: seq<SystemDomain>): RouteTable {
    AddSystems(TenantRoutes(table), ss)
  }

  /** The router table of the generated file. */
  function BuildRoutes(table: Tenants.Table): RouteTable {
    BuildWith(table, SystemDomains)
  }

  // ---------------------------------------------------------------------
  // Name bookkeeping

  function NameSet(t: RouteTable): set<string> {
    set n | n in Names(t)
  }

  lemma NameSetAssign(t: RouteTable, name: string, router: Router)
    ensures NameSet(Assign(t, name, router)) == NameSet(t) + {name}
  {
  }

  /** A table with distinct names has as many names as entries. */
  lemma {:induction false} DistinctNameCount(t: RouteTable)
    requires DistinctNames(t)
    ensures |NameSet(t)| == |t|
    decreases |t|
  {
    if |t| > 0 {
      DistinctNameCount(t[1..]);
      assert Names(t) == [t[0].name] + Names(t[1..]);
      assert NameSet(t) == {t[0].name} + NameSet(t[1..]);
      assert t[0].name !in NameSet(t[1..]);
    }
  }

  /** In a table with distinct names, `routes[e.name]` is `e`'s router. */
  lemma {:induction false} LookupFindsEntry(t: RouteTable, e: Entry)
    requires DistinctNames(t) && e in t
    ensures Lookup(t, e.name) == Some(e.router)
    decreases |t|
  {
    if t[0] != e {
      assert e in t[1..];
      var k :| 0 <= k < |t[1..]| && t[1..][k] == e;
      assert t[0].name != t[k + 1].name;
      LookupFindsEntry(t[1..], e);
    }
  }

  /** A name not yet present is appended. */
  lemma {:induction false} AssignNew(t: RouteTable, name: string, router: Router)
    requires name !in Names(t)
    ensures Assign(t, name, router) == t + [Entry(name, router)]
    decreases |t|
  {
    if |t| > 0 {
      var rest := t[1..];
      assert Names(t)[0] == t[0].name;
      assert name !in Names(rest) by {
        assert Names(t) == [t[0].name] + Names(rest);
      }
      AssignNew(rest, name, router);
      calc {
        Assign(t, name, router);
        [t[0]] + Assign(rest, name, router);
        [t[0]] + (rest + [Entry(name, router)]);
        { assert t == [t[0]] + rest; }
        t + [Entry(name, router)];
      }
    }
  }

  function Prefixed(prefix: string, suffixes: set<string>): set<string> {
    set m | m in suffixes :: prefix + m
  }

  lemma PrefixCancel(prefix: string, x: string, y: string)
    ensures prefix + x == prefix + y ==> x == y
  {
    if prefix + x == prefix + y {
      assert (prefix + x)[|prefix|..] == x;
      assert (prefix + y)[|prefix|..] == y;
    }
  }

  lemma InPrefixed(prefix: string, suffixes: set<string>, m: string)
    ensures prefix + m in Prefixed(prefix, suffixes) <==> m in suffixes
  {
    if prefix + m in Prefixed(prefix, suffixes) {
      var x :| x in suffixes && prefix + m == prefix + x;
      PrefixCancel(prefix, m, x);
    }
  }

  /** Frontend, API and system router names never coincide. */
  lemma PrefixesDiffer(x: string, y: string)
    ensures FrontendPrefix + x != ApiPrefix + y
    ensures FrontendPrefix + x != SystemPrefix + y
    ensures ApiPrefix + x != SystemPrefix + y
  {
    assert (FrontendPrefix + x)[0] == 'f';
    assert (ApiPrefix + y)[0] == 'a' && (ApiPrefix + x)[0] == 'a';
    assert (SystemPrefix + y)[0] == 's';
  }

  lemma NotCrossPrefixed(m: string, suffixes: set<string>)
    ensures FrontendPrefix + m !in Prefixed(ApiPrefix, suffixes)
    ensures ApiPrefix + m !in Prefixed(FrontendPrefix, suffixes)
  {
    if FrontendPrefix + m in Prefixed(ApiPrefix, suffixes) {
      var x :| x in suffixes && FrontendPrefix + m == ApiPrefix + x;
      PrefixesDiffer(m, x);
    }
    if ApiPrefix + m in Prefixed(FrontendPrefix, suffixes) {
      var x :| x in suffixes && ApiPrefix + m == FrontendPrefix + x;
      PrefixesDiffer(x, m);
    }
  }

  lemma {:induction false} PrefixedCount(prefix: string, suffixes: set<string>)
    ensures |Prefixed(prefix, suffixes)| == |suffixes|
    decreases |suffixes|
  {
    if suffixes != {} {
      var m :| m in suffixes;
      var rest := suffixes - {m};
      PrefixedCount(prefix, rest);
      InPrefixed(prefix, rest, m);
      assert Prefixed(prefix, suffixes) == Prefixed(prefix, rest) + {prefix + m};
    }
  }

  // ---------------------------------------------------------------------
  // Tenant routers

  /** The dashed domains of a list of tenants. */
  function DashedSet(cs: seq<Tenants.Company>): (s: set<string>)
    ensures forall m :: m in s <==> exists i :: 0 <= i < |cs| && Dashed(cs[i].domain) == m
    decreases |cs|
  {
    if |cs| == 0 then {}
    else
      var s := {Dashed(cs[0].domain)} + DashedSet(cs[1..]);
      assert forall i :: 0 < i < |cs| ==> cs[i] == cs[1..][i - 1];
      s
  }

  /** No two tenants of the list share a router name. */
  predicate DashedInjective(cs: seq<Tenants.Company>) {
    forall i, j :: 0 <= i < j < |cs| ==> Dashed(cs[i].domain) != Dashed(cs[j].domain)
  }

  lemma InjectiveCons(cs: seq<Tenants.Company>)
    requires |cs| > 0
    ensures DashedInjective(cs) <==>
      DashedInjective(cs[1..]) && Dashed(cs[0].domain) !in DashedSet(cs[1..])
  {
    var rest := cs[1..];
    var d := Dashed(cs[0].domain);
    if DashedInjective(cs) {
      forall i, j | 0 <= i < j < |rest| ensures Dashed(rest[i].domain) != Dashed(rest[j].domain) {
        assert rest[i] == cs[i + 1] && rest[j] == cs[j + 1];
      }
      forall k | 0 <= k < |rest| ensures Dashed(rest[k].domain) != d {
        assert cs[k + 1] == rest[k];
      }
    }
    if DashedInjective(rest) && d !in DashedSet(rest) {
      forall i, j | 0 <= i < j < |cs| ensures Dashed(cs[i].domain) != Dashed(cs[j].domain) {
        assert cs[j] == rest[j - 1];
        if i > 0 {
          assert cs[i] == rest[i - 1];
        }
      }
    }
  }

  lemma AddOneCount(d: string, s: set<string>)
    ensures |{d} + s| == if d in s then |s| else |s| + 1
  {
    if d in s {
      assert {d} + s == s;
    }
  }

  /** Distinct router names for at most as many tenants; exactly as many
      when no two tenants share a dashed domain. */
  lemma {:induction false} DashedSetCount(cs: seq<Tenants.Company>)
    ensures |DashedSet(cs)| <= |cs|
    ensures |DashedSet(cs)| == |cs| <==> DashedInjective(cs)
    decreases |cs|
  {
    if |cs| > 0 {
      var rest := cs[1..];
      var d := Dashed(cs[0].domain);
      DashedSetCount(rest);
      InjectiveCons(cs);
      assert DashedSet(cs) == {d} + DashedSet(rest);
      AddOneCount(d, DashedSet(rest));
    }
  }

  /** The position of the tenant whose routers are left under dashed name
      `m`: the last one with that name. */
  function WinnerIndex(cs: seq<Tenants.Company>, m: string): (k: nat)
    requires m in DashedSet(cs)
    ensures k < |cs| && Dashed(cs[k].domain) == m
    ensures forall j :: k < j < |cs| ==> Dashed(cs[j].domain) != m
    decreases |cs|
  {
    if m in DashedSet(cs[1..]) then
      var k := 1 + WinnerIndex(cs[1..], m);
      assert forall j :: k < j < |cs| ==> cs[j] == cs[1..][j - 1];
      k
    else
      assert forall j :: 0 < j < |cs| ==> cs[j] == cs[1..][j - 1];
      0
  }

  lemma NameSetAddTenant(t: RouteTable, c: Tenants.Company)
    ensures NameSet(AddTenant(t, c)) == NameSet(t) + {FrontendName(c.domain), ApiName(c.domain)}
  {
    NameSetAssign(t, FrontendName(c.domain), FrontendRouter(c.domain));
    NameSetAssign(Assign(t, FrontendName(c.domain), FrontendRouter(c.domain)), ApiName(c.domain), ApiRouter(c.domain));
  }

  lemma PrefixedCons(prefix: string, m: string, suffixes: set<string>)
    ensures Prefixed(prefix, {m} + suffixes) == {prefix + m} + Prefixed(prefix, suffixes)
  {
  }

  lemma {:induction false} TenantNames(t: RouteTable, cs: seq<Tenants.Company>)
    ensures NameSet(AddTenants(t, cs)) ==
      NameSet(t) + Prefixed(FrontendPrefix, DashedSet(cs)) + Prefixed(ApiPrefix, DashedSet(cs))
    decreases |cs|
  {
    if |cs| == 0 {
      assert DashedSet(cs) == {};
    } else {
      var d := cs[0].domain;
      var rest := cs[1..];
      NameSetAddTenant(t, cs[0]);
      TenantNames(AddTenant(t, cs[0]), rest);
      assert DashedSet(cs) == {Dashed(d)} + DashedSet(rest);
      PrefixedCons(FrontendPrefix, Dashed(d), DashedSet(rest));
      PrefixedCons(ApiPrefix, Dashed(d), DashedSet(rest));
    }
  }

  lemma {:induction false} AddTenantsDistinct(t: RouteTable, cs: seq<Tenants.Company>)
    requires DistinctNames(t)
    ensures DistinctNames(AddTenants(t, cs))
    decreases |cs|
  {
    if |cs| > 0 {
      var d := cs[0].domain;
      AssignKeepsDistinct(t, FrontendName(d), FrontendRouter(d));
      AssignKeepsDistinct(Assign(t, FrontendName(d), FrontendRouter(d)), ApiName(d), ApiRouter(d));
      AddTenantsDistinct(AddTenant(t, cs[0]), cs[1..]);
    }
  }

  /** Names no tenant of `cs` produces keep their router. */
  lemma {:induction false} UntouchedRoutes(t: RouteTable, cs: seq<Tenants.Company>, n: string)
    requires n !in Prefixed(FrontendPrefix, DashedSet(cs)) && n !in Prefixed(ApiPrefix, DashedSet(cs))
    ensures Lookup(AddTenants(t, cs), n) == Lookup(t, n)
    decreases |cs|
  {
    if |cs| > 0 {
      var d := cs[0].domain;
      assert Dashed(d) in DashedSet(cs);
      assert n != FrontendName(d) && n != ApiName(d);
      AssignLookup(t, FrontendName(d), FrontendRouter(d), n);
      AssignLookup(Assign(t, FrontendName(d), FrontendRouter(d)), ApiName(d), ApiRouter(d), n);
      assert DashedSet(cs) == {Dashed(d)} + DashedSet(cs[1..]);
      UntouchedRoutes(AddTenant(t, cs[0]), cs[1..], n);
    }
  }

  /** Under a dashed name the routers of the last tenant carrying it remain. */
  lemma {:induction false} WinnerRoutes(t: RouteTable, cs: seq<Tenants.Company>, m: string)
    requires m in DashedSet(cs)
    ensures var w := cs[WinnerIndex(cs, m)];
      && Lookup(AddTenants(t, cs), FrontendPrefix + m) == Some(FrontendRouter(w.domain))
      && Lookup(AddTenants(t, cs), ApiPrefix + m) == Some(ApiRouter(w.domain))
    decreases |cs|
  {
    var rest := cs[1..];
    var d := cs[0].domain;
    var t1 := AddTenant(t, cs[0]);
    if m in DashedSet(rest) {
      WinnerRoutes(t1, rest, m);
      assert cs[WinnerIndex(cs, m)] == rest[WinnerIndex(rest, m)];
    } else {
      assert m == Dashed(d);
      var t0 := Assign(t, FrontendName(d), FrontendRouter(d));
      PrefixesDiffer(m, m);
      AssignLookup(t, FrontendName(d), FrontendRouter(d), FrontendName(d));
      AssignLookup(t0, ApiName(d), ApiRouter(d), FrontendName(d));
      AssignLookup(t0, ApiName(d), ApiRouter(d), ApiName(d));
      InPrefixed(FrontendPrefix, DashedSet(rest), m);
      InPrefixed(ApiPrefix, DashedSet(rest), m);
      NotCrossPrefixed(m, DashedSet(rest));
      UntouchedRoutes(t1, rest, FrontendPrefix + m);
      UntouchedRoutes(t1, rest, ApiPrefix + m);
    }
  }

  /** Both routers of every tenant, in list order. */
  function Expand(cs: seq<Tenants.Company>): (r: RouteTable)
    ensures |r| == 2 * |cs|
    decreases |cs|
  {
    if |cs| == 0 then []
    else
      var d := cs[0].domain;
      [Entry(FrontendName(d), FrontendRouter(d)), Entry(ApiName(d), ApiRouter(d))] + Expand(cs[1..])
  }

  lemma ExpandOne(c: Tenants.Company)
    ensures Expand([c]) == [Entry(FrontendName(c.domain), FrontendRouter(c.domain)), Entry(ApiName(c.domain), ApiRouter(c.domain))]
  {
    assert [c][1..] == [];
  }

  lemma ExpandCons(cs: seq<Tenants.Company>)
    requires |cs| > 0
    ensures Expand(cs) == Expand([cs[0]]) + Expand(cs[1..])
  {
    ExpandOne(cs[0]);
  }

  /** A tenant whose router names are new appends its two routers. */
  lemma AddTenantNew(t: RouteTable, c: Tenants.Company)
    requires FrontendName(c.domain) !in Names(t) && ApiName(c.domain) !in Names(t)
    ensures AddTenant(t, c) == t + Expand([c])
    ensures Names(AddTenant(t, c)) == Names(t) + [FrontendName(c.domain), ApiName(c.domain)]
  {
    var ef := Entry(FrontendName(c.domain), FrontendRouter(c.domain));
    var ea := Entry(ApiName(c.domain), ApiRouter(c.domain));
    AssignNew(t, ef.name, ef.router);
    var t0 := t + [ef];
    assert ea.name !in Names(t0) by {
      PrefixesDiffer(Dashed(c.domain), Dashed(c.domain));
    }
    AssignNew(t0, ea.name, ea.router);
    ExpandOne(c);
    assert t0 + [ea] == t + [ef, ea];
  }

  /** Tenants with other dashed domains produce other router names. */
  lemma OtherTenantNames(c: Tenants.Company, x: Tenants.Company)
    requires Dashed(c.domain) != Dashed(x.domain)
    ensures FrontendName(x.domain) !in [FrontendName(c.domain), ApiName(c.domain)]
    ensures ApiName(x.domain) !in [FrontendName(c.domain), ApiName(c.domain)]
  {
    PrefixCancel(FrontendPrefix, Dashed(x.domain), Dashed(c.domain));
    PrefixCancel(ApiPrefix, Dashed(x.domain), Dashed(c.domain));
    PrefixesDiffer(Dashed(x.domain), Dashed(c.domain));
    PrefixesDiffer(Dashed(c.domain), Dashed(x.domain));
  }

  /** Adding a tenant with another dashed domain leaves `x`'s names free. */
  lemma StillFree(t: RouteTable, c: Tenants.Company, x: Tenants.Company)
    requires Dashed(c.domain) != Dashed(x.domain)
    requires FrontendName(c.domain) !in Names(t) && ApiName(c.domain) !in Names(t)
    requires FrontendName(x.domain) !in Names(t) && ApiName(x.domain) !in Names(t)
    ensures FrontendName(x.domain) !in Names(AddTenant(t, c)) && ApiName(x.domain) !in Names(AddTenant(t, c))
  {
    AddTenantNew(t, c);
    OtherTenantNames(c, x);
  }

  /** After the first tenant is added, the others' names are still free. */
  lemma RestStillFree(t: RouteTable, cs: seq<Tenants.Company>)
    requires |cs| > 0 && DashedInjective(cs)
    requires forall i :: 0 <= i < |cs| ==> FrontendName(cs[i].domain) !in Names(t) && ApiName(cs[i].domain) !in Names(t)
    ensures forall i :: 0 <= i < |cs| - 1 ==>
      FrontendName(cs[1..][i].domain) !in Names(AddTenant(t, cs[0])) &&
      ApiName(cs[1..][i].domain) !in Names(AddTenant(t, cs[0]))
  {
    var rest := cs[1..];
    forall i | 0 <= i < |rest|
      ensures FrontendName(rest[i].domain) !in Names(AddTenant(t, cs[0]))
      ensures ApiName(rest[i].domain) !in Names(AddTenant(t, cs[0]))
    {
      assert rest[i] == cs[i + 1];
      StillFree(t, cs[0], cs[i + 1]);
    }
  }

  lemma AppendStep(t: RouteTable, cs: seq<Tenants.Company>)
    requires |cs| > 0
    requires AddTenant(t, cs[0]) == t + Expand([cs[0]])
    requires AddTenants(AddTenant(t, cs[0]), cs[1..]) == AddTenant(t, cs[0]) + Expand(cs[1..])
    ensures AddTenants(t, cs) == t + Expand(cs)
  {
    assert AddTenants(t, cs) == AddTenants(AddTenant(t, cs[0]), cs[1..]);
    ExpandCons(cs);
    Associative(t, Expand([cs[0]]), Expand(cs[1..]));
  }

  lemma Associative<T>(a: seq<T>, b: seq<T>, c: seq<T>)
    ensures (a + b) + c == a + (b + c)
  {
  }

  /** Without shared router names, each tenant's two routers are appended
      in turn. */
  lemma {:induction false} AddTenantsAppends(t: RouteTable, cs: seq<Tenants.Company>)
    requires DashedInjective(cs)
    requires forall i :: 0 <= i < |cs| ==> FrontendName(cs[i].domain) !in Names(t) && ApiName(cs[i].domain) !in Names(t)
    ensures AddTenants(t, cs) == t + Expand(cs)
    decreases |cs|
  {
    if |cs| > 0 {
      var rest := cs[1..];
      AddTenantNew(t, cs[0]);
      var t1 := AddTenant(t, cs[0]);
      RestStillFree(t, cs);
      InjectiveCons(cs);
      AddTenantsAppends(t1, rest);
      AppendStep(t, cs);
    }
  }

  // ---------------------------------------------------------------------
  // The whole table

  function SystemEntry(s: SystemDomain): Entry {
    Entry(SystemName(s.domain), SystemRouter(s))
  }

  /** Two system domains whose router names differ. The lemmas below are
      stated for any such pair; `SystemDomainsApart` shows the deployed
      pair is one. */
  predicate SystemsApart(ss: seq<SystemDomain>) {
    |ss| == 2 && SystemName(ss[0].domain) != SystemName(ss[1].domain)
  }

  lemma SystemNamesByFirstChar(d0: string, d1: string)
    requires |d0| > 0 && |d1| > 0 && d0[0] != d1[0] && d0[0] != '.' && d1[0] != '.'
    ensures SystemName(d0) != SystemName(d1)
  {
    assert Dashed(d0)[0] != Dashed(d1)[0];
    PrefixCancel(SystemPrefix, Dashed(d0), Dashed(d1));
  }

  lemma SystemDomainsApart()
    ensures SystemsApart(SystemDomains)
  {
    SystemNamesByFirstChar(SystemDomains[0].domain, SystemDomains[1].domain);
  }

  lemma SystemsUnfold(t: RouteTable, ss: seq<SystemDomain>)
    requires |ss| == 2
    ensures AddSystems(t, ss) ==
      Assign(Assign(t, SystemEntry(ss[0]).name, SystemEntry(ss[0]).router), SystemEntry(ss[1]).name, SystemEntry(ss[1]).router)
  {
    var rest := ss[1..];
    assert rest[0] == ss[1] && rest[1..] == [];
    var t0 := Assign(t, SystemEntry(ss[0]).name, SystemEntry(ss[0]).router);
    assert AddSystems(t, ss) == AddSystems(t0, rest);
    assert AddSystems(t0, rest) == AddSystems(Assign(t0, SystemEntry(ss[1]).name, SystemEntry(ss[1]).router), []);
  }

  /** No tenant router takes a system router's name. */
  lemma SystemNameNotTenant(domain: string, suffixes: set<string>)
    ensures SystemName(domain) !in Prefixed(FrontendPrefix, suffixes)
    ensures SystemName(domain) !in Prefixed(ApiPrefix, suffixes)
  {
    var m := Dashed(domain);
    if SystemName(domain) in Prefixed(FrontendPrefix, suffixes) {
      var x :| x in suffixes && FrontendPrefix + x == SystemName(domain);
      PrefixesDiffer(x, m);
    }
    if SystemName(domain) in Prefixed(ApiPrefix, suffixes) {
      var x :| x in suffixes && ApiPrefix + x == SystemName(domain);
      PrefixesDiffer(x, m);
    }
  }

  /** A tenant router name is never a system router name. */
  lemma TenantNameNotSystem(m: string, domain: string)
    ensures FrontendPrefix + m != SystemName(domain) && ApiPrefix + m != SystemName(domain)
  {
    PrefixesDiffer(m, Dashed(domain));
  }

  /** The system routers add their two names and keep names distinct. */
  lemma SystemNames(t: RouteTable, ss: seq<SystemDomain>)
    requires |ss| == 2
    ensures NameSet(AddSystems(t, ss)) == NameSet(t) + {SystemName(ss[0].domain), SystemName(ss[1].domain)}
    ensures DistinctNames(t) ==> DistinctNames(AddSystems(t, ss))
  {
    var e0 := SystemEntry(ss[0]);
    var e1 := SystemEntry(ss[1]);
    SystemsUnfold(t, ss);
    var t0 := Assign(t, e0.name, e0.router);
    NameSetAssign(t, e0.name, e0.router);
    NameSetAssign(t0, e1.name, e1.router);
    if DistinctNames(t) {
      AssignKeepsDistinct(t, e0.name, e0.router);
      AssignKeepsDistinct(t0, e1.name, e1.router);
    }
  }

  /** Router names are distinct: a frontend and an API router per dashed
      domain of an active tenant, and the two system routers. */
  lemma RouteNames(table: Tenants.Table, ss: seq<SystemDomain>)
    requires |ss| == 2
    ensures DistinctNames(BuildWith(table, ss))
    ensures var m := DashedSet(RoutedTenants(table));
      NameSet(BuildWith(table, ss)) ==
        Prefixed(FrontendPrefix, m) + Prefixed(ApiPrefix, m) + {SystemName(ss[0].domain), SystemName(ss[1].domain)}
  {
    var cs := RoutedTenants(table);
    TenantNames([], cs);
    assert NameSet([]) == {};
    AddTenantsDistinct([], cs);
    SystemNames(TenantRoutes(table), ss);
  }

  /** Tenant router names are looked up in the tenant part only. */
  lemma SystemsKeepTenantRoutes(table: Tenants.Table, ss: seq<SystemDomain>, n: string)
    requires |ss| == 2 && n != SystemName(ss[0].domain) && n != SystemName(ss[1].domain)
    ensures Lookup(BuildWith(table, ss), n) == Lookup(TenantRoutes(table), n)
  {
    var tr := TenantRoutes(table);
    var e0 := SystemEntry(ss[0]);
    var e1 := SystemEntry(ss[1]);
    SystemsUnfold(tr, ss);
    AssignLookup(tr, e0.name, e0.router, n);
    AssignLookup(Assign(tr, e0.name, e0.router), e1.name, e1.router, n);
  }

  /** Both system routers are always present. */
  lemma SystemRoutesPresent(table: Tenants.Table, ss: seq<SystemDomain>)
    requires SystemsApart(ss)
    ensures Lookup(BuildWith(table, ss), SystemName(ss[0].domain)) == Some(SystemRouter(ss[0]))
    ensures Lookup(BuildWith(table, ss), SystemName(ss[1].domain)) == Some(SystemRouter(ss[1]))
  {
    var tr := TenantRoutes(table);
    var e0 := SystemEntry(ss[0]);
    var e1 := SystemEntry(ss[1]);
    SystemsUnfold(tr, ss);
    var t0 := Assign(tr, e0.name, e0.router);
    AssignLookup(tr, e0.name, e0.router, e0.name);
    AssignLookup(t0, e1.name, e1.router, e0.name);
    AssignLookup(t0, e1.name, e1.router, e1.name);
  }

  /** Tenant `i`'s router names carry the rules of the last tenant with
      the same dashed domain, which sits at or after `i`. */
  lemma TenantRouted(cs: seq<Tenants.Company>, i: nat)
    requires i < |cs|
    ensures Dashed(cs[i].domain) in DashedSet(cs)
    ensures var k := WinnerIndex(cs, Dashed(cs[i].domain));
      && i <= k
      && Lookup(AddTenants([], cs), FrontendName(cs[i].domain)) == Some(FrontendRouter(cs[k].domain))
      && Lookup(AddTenants([], cs), ApiName(cs[i].domain)) == Some(ApiRouter(cs[k].domain))
  {
    var m := Dashed(cs[i].domain);
    assert m in DashedSet(cs);
    WinnerRoutes([], cs, m);
  }

  /** In the tenant part, an active tenant's names carry the rules of an
      active tenant with the same dashed domain, created no earlier. */
  lemma TenantRoutedIn(table: Tenants.Table, c: Tenants.Company)
    requires c in table.rows && c.status == Tenants.Active
    ensures exists w :: && w in table.rows && w.status == Tenants.Active
                        && Dashed(w.domain) == Dashed(c.domain) && w.createdAt >= c.createdAt
                        && Lookup(TenantRoutes(table), FrontendName(c.domain)) == Some(FrontendRouter(w.domain))
                        && Lookup(TenantRoutes(table), ApiName(c.domain)) == Some(ApiRouter(w.domain))
  {
    var cs := RoutedTenants(table);
    var i := RoutedPosition(table, c);
    TenantRouted(cs, i);
    var k := WinnerIndex(cs, Dashed(c.domain));
    RoutedLater(table, i, k);
    var w := cs[k];
    assert && w in table.rows && w.status == Tenants.Active
           && Dashed(w.domain) == Dashed(c.domain) && w.createdAt >= c.createdAt
           && Lookup(TenantRoutes(table), FrontendName(c.domain)) == Some(FrontendRouter(w.domain))
           && Lookup(TenantRoutes(table), ApiName(c.domain)) == Some(ApiRouter(w.domain));
  }

  /** Where an active tenant sits in the routing order. */
  lemma RoutedPosition(table: Tenants.Table, c: Tenants.Company) returns (i: nat)
    requires c in table.rows && c.status == Tenants.Active
    ensures i < |RoutedTenants(table)| && RoutedTenants(table)[i] == c
  {
    var cs := RoutedTenants(table);
    assert c in cs;
    i :| 0 <= i < |cs| && cs[i] == c;
  }

  /** A tenant routed later is active and created no earlier. */
  lemma RoutedLater(table: Tenants.Table, i: nat, k: nat)
    requires i <= k < |RoutedTenants(table)|
    ensures var cs := RoutedTenants(table);
      && cs[k] in table.rows && cs[k].status == Tenants.Active
      && cs[k].createdAt >= cs[i].createdAt
  {
  }

  /** Every active tenant's router names are present. They carry the rules
      of an active tenant with the same dashed domain, created no earlier:
      of two domains differing only in '.' versus '-', the later one's
      routers are the ones left. */
  lemma ActiveTenantRouted(table: Tenants.Table, ss: seq<SystemDomain>, c: Tenants.Company)
    requires |ss| == 2
    requires c in table.rows && c.status == Tenants.Active
    ensures exists w :: && w in table.rows && w.status == Tenants.Active
                        && Dashed(w.domain) == Dashed(c.domain) && w.createdAt >= c.createdAt
                        && Lookup(BuildWith(table, ss), FrontendName(c.domain)) == Some(FrontendRouter(w.domain))
                        && Lookup(BuildWith(table, ss), ApiName(c.domain)) == Some(ApiRouter(w.domain))
  {
    TenantRoutedIn(table, c);
    TenantNameNotSystem(Dashed(c.domain), ss[0].domain);
    TenantNameNotSystem(Dashed(c.domain), ss[1].domain);
    SystemsKeepTenantRoutes(table, ss, FrontendName(c.domain));
    SystemsKeepTenantRoutes(table, ss, ApiName(c.domain));
  }

  /** A tenant whose dashed domain no other active tenant shares is served
      by exactly its own rules. */
  lemma ActiveTenantOwnsRoutes(table: Tenants.Table, ss: seq<SystemDomain>, c: Tenants.Company)
    requires |ss| == 2
    requires c in table.rows && c.status == Tenants.Active
    requires forall x :: x in table.rows && x.status == Tenants.Active && x != c ==> Dashed(x.domain) != Dashed(c.domain)
    ensures Lookup(BuildWith(table, ss), FrontendName(c.domain)) == Some(FrontendRouter(c.domain))
    ensures Lookup(BuildWith(table, ss), ApiName(c.domain)) == Some(ApiRouter(c.domain))
  {
    ActiveTenantRouted(table, ss, c);
  }

  /** An entry of an assigned table is the assigned one or an old one. */
  lemma {:induction false} AssignEntries(t: RouteTable, name: string, router: Router, e: Entry)
    requires e in Assign(t, name, router)
    ensures e == Entry(name, router) || e in t
    decreases |t|
  {
    if |t| > 0 && t[0].name != name && e != t[0] {
      assert e in Assign(t[1..], name, router);
      AssignEntries(t[1..], name, router, e);
    }
  }

  /** Every entry of the tenant part is the frontend or API router of one of
      the listed tenants. */
  lemma TenantEntryOwner(cs: seq<Tenants.Company>, e: Entry)
    requires e in AddTenants([], cs)
    ensures exists k :: && 0 <= k < |cs|
                        && (|| e == Entry(FrontendName(cs[k].domain), FrontendRouter(cs[k].domain))
                            || e == Entry(ApiName(cs[k].domain), ApiRouter(cs[k].domain)))
  {
    var m := TenantEntryName(cs, e);
    WinnerEntry(cs, e, m);
    var k := WinnerIndex(cs, m);
    assert || e == Entry(FrontendName(cs[k].domain), FrontendRouter(cs[k].domain))
           || e == Entry(ApiName(cs[k].domain), ApiRouter(cs[k].domain));
  }

  /** The dashed name an entry of the tenant part is filed under. */
  lemma TenantEntryName(cs: seq<Tenants.Company>, e: Entry) returns (m: string)
    requires e in AddTenants([], cs)
    ensures m in DashedSet(cs)
    ensures e.name == FrontendPrefix + m || e.name == ApiPrefix + m
    ensures Lookup(AddTenants([], cs), e.name) == Some(e.router)
  {
    var tr := AddTenants([], cs);
    AddTenantsDistinct([], cs);
    LookupFindsEntry(tr, e);
    EntryNameInSet(tr, e);
    TenantNames([], cs);
    assert NameSet([]) == {};
    var ms := DashedSet(cs);
    assert e.name in Prefixed(FrontendPrefix, ms) + Prefixed(ApiPrefix, ms);
    m :| m in ms && (e.name == FrontendPrefix + m || e.name == ApiPrefix + m);
  }

  lemma EntryNameInSet(t: RouteTable, e: Entry)
    requires e in t
    ensures e.name in NameSet(t)
  {
    var i :| 0 <= i < |t| && t[i] == e;
    assert Names(t)[i] == e.name;
  }

  /** A tenant-part entry under dashed name `m` is one of the winner's two. */
  lemma WinnerEntry(cs: seq<Tenants.Company>, e: Entry, m: string)
    requires m in DashedSet(cs)
    requires Lookup(AddTenants([], cs), e.name) == Some(e.router)
    requires e.name == FrontendPrefix + m || e.name == ApiPrefix + m
    ensures var w := cs[WinnerIndex(cs, m)];
      || e == Entry(FrontendName(w.domain), FrontendRouter(w.domain))
      || e == Entry(ApiName(w.domain), ApiRouter(w.domain))
  {
    WinnerRoutes([], cs, m);
  }

  /** Every router in the table belongs to an active tenant or is a system
      router. */
  lemma RoutesServeOnlyActive(table: Tenants.Table, ss: seq<SystemDomain>, e: Entry)
    requires |ss| == 2
    requires e in BuildWith(table, ss)
    ensures || e == SystemEntry(ss[0]) || e == SystemEntry(ss[1])
            || exists c :: && c in table.rows && c.status == Tenants.Active
                           && (|| e == Entry(FrontendName(c.domain), FrontendRouter(c.domain))
                               || e == Entry(ApiName(c.domain), ApiRouter(c.domain)))
  {
    var cs := RoutedTenants(table);
    var tr := TenantRoutes(table);
    var e0 := SystemEntry(ss[0]);
    var e1 := SystemEntry(ss[1]);
    SystemsUnfold(tr, ss);
    var t0 := Assign(tr, e0.name, e0.router);
    AssignEntries(t0, e1.name, e1.router, e);
    if e != e1 {
      AssignEntries(tr, e0.name, e0.router, e);
      if e != e0 {
        TenantEntryOwner(cs, e);
        var k :| && 0 <= k < |cs|
                 && (|| e == Entry(FrontendName(cs[k].domain), FrontendRouter(cs[k].domain))
                     || e == Entry(ApiName(cs[k].domain), ApiRouter(cs[k].domain)));
        assert cs[k] in cs;
      }
    }
  }

  // ---------------------------------------------------------------------
  // Counting and ordering

  /** No two distinct active tenants share a router name. */
  predicate DashedNamesDistinct(table: Tenants.Table) {
    forall c1, c2 ::
      (c1 in table.rows && c2 in table.rows && c1.status == Tenants.Active && c2.status == Tenants.Active && c1 != c2)
      ==> Dashed(c1.domain) != Dashed(c2.domain)
  }

  lemma {:induction false} RowsOnce(rows: seq<Tenants.Company>)
    requires forall i, j :: 0 <= i < j < |rows| ==> rows[i].id != rows[j].id
    ensures forall c :: multiset(rows)[c] <= 1
    decreases |rows|
  {
    if |rows| > 0 {
      var rest := rows[1..];
      RowsOnce(rest);
      assert rows == [rows[0]] + rest;
      forall k | 0 <= k < |rest| ensures rest[k] != rows[0] {
        assert rest[k] == rows[k + 1];
      }
      assert rows[0] !in rest;
    }
  }

  lemma NoRepeats<T>(s: seq<T>)
    requires forall x :: multiset(s)[x] <= 1
    ensures forall i, j :: 0 <= i < j < |s| ==> s[i] != s[j]
  {
    forall i, j | 0 <= i < j < |s| ensures s[i] != s[j] {
      var a, b := s[..j], s[j..];
      assert s == a + b;
      assert a[i] == s[i] && b[0] == s[j];
      assert multiset(s) == multiset(a) + multiset(b);
      assert s[i] in multiset(a) && s[j] in multiset(b);
      assert multiset(s)[s[i]] == multiset(a)[s[i]] + multiset(b)[s[i]];
      assert multiset(s)[s[j]] == multiset(a)[s[j]] + multiset(b)[s[j]];
    }
  }

  /** The routed tenants are the active rows, each once. */
  lemma RoutedOnce(table: Tenants.Table)
    requires Tenants.Valid(table)
    ensures forall i, j :: 0 <= i < j < |RoutedTenants(table)| ==> RoutedTenants(table)[i] != RoutedTenants(table)[j]
  {
    var active := Tenants.ActiveRows(table.rows);
    RowsOnce(table.rows);
    assert multiset(RoutedTenants(table)) == multiset(active);
    NoRepeats(RoutedTenants(table));
  }

  /** For a list holding each active row once, pairwise distinct dashed
      domains by position are the same as by tenant. */
  lemma InjectiveByRows(table: Tenants.Table, cs: seq<Tenants.Company>)
    requires forall i, j :: 0 <= i < j < |cs| ==> cs[i] != cs[j]
    requires forall c :: c in cs <==> c in table.rows && c.status == Tenants.Active
    ensures DashedInjective(cs) <==> DashedNamesDistinct(table)
  {
    if DashedInjective(cs) {
      forall c1, c2 | c1 in table.rows && c2 in table.rows &&
        c1.status == Tenants.Active && c2.status == Tenants.Active && c1 != c2
        ensures Dashed(c1.domain) != Dashed(c2.domain)
      {
        var i :| 0 <= i < |cs| && cs[i] == c1;
        var j :| 0 <= j < |cs| && cs[j] == c2;
        if i > j {
          assert Dashed(cs[j].domain) != Dashed(cs[i].domain);
        }
      }
    }
    if DashedNamesDistinct(table) {
      forall i, j | 0 <= i < j < |cs| ensures Dashed(cs[i].domain) != Dashed(cs[j].domain) {
        assert cs[i] in cs && cs[j] in cs;
      }
    }
  }

  lemma RoutedInjective(table: Tenants.Table)
    requires Tenants.Valid(table)
    ensures DashedInjective(RoutedTenants(table)) <==> DashedNamesDistinct(table)
  {
    RoutedOnce(table);
    InjectiveByRows(table, RoutedTenants(table));
  }

  /** The three groups of router names do not overlap. */
  lemma NameGroupsApart(ms: set<string>, ss: seq<SystemDomain>)
    requires SystemsApart(ss)
    ensures Prefixed(FrontendPrefix, ms) * Prefixed(ApiPrefix, ms) == {}
    ensures (Prefixed(FrontendPrefix, ms) + Prefixed(ApiPrefix, ms)) * {SystemName(ss[0].domain), SystemName(ss[1].domain)} == {}
    ensures |{SystemName(ss[0].domain), SystemName(ss[1].domain)}| == 2
  {
    forall n | n in Prefixed(FrontendPrefix, ms) ensures n !in Prefixed(ApiPrefix, ms) {
      var m :| m in ms && n == FrontendPrefix + m;
      NotCrossPrefixed(m, ms);
    }
    SystemNameNotTenant(ss[0].domain, ms);
    SystemNameNotTenant(ss[1].domain, ms);
  }

  /** Two routers per distinct dashed domain plus the two system routers:
      never more than two per active tenant plus two, and exactly that many
      iff no two active tenants share a dashed domain. */
  lemma RouteCount(table: Tenants.Table, ss: seq<SystemDomain>)
    requires Tenants.Valid(table) && SystemsApart(ss)
    ensures |BuildWith(table, ss)| == 2 * |DashedSet(RoutedTenants(table))| + 2
    ensures |BuildWith(table, ss)| <= 2 * |Tenants.ActiveRows(table.rows)| + 2
    ensures |BuildWith(table, ss)| == 2 * |Tenants.ActiveRows(table.rows)| + 2 <==> DashedNamesDistinct(table)
  {
    var cs := RoutedTenants(table);
    var ms := DashedSet(cs);
    var b := BuildWith(table, ss);
    var pf := Prefixed(FrontendPrefix, ms);
    var pa := Prefixed(ApiPrefix, ms);
    var sys := {SystemName(ss[0].domain), SystemName(ss[1].domain)};
    RouteNames(table, ss);
    DistinctNameCount(b);
    PrefixedCount(FrontendPrefix, ms);
    PrefixedCount(ApiPrefix, ms);
    NameGroupsApart(ms, ss);
    assert |NameSet(b)| == |pf| + |pa| + |sys|;
    DashedSetCount(cs);
    RoutedInjective(table);
  }

  /** Without shared dashed domains the tenant part is every routed
      tenant's two routers in turn. */
  lemma TenantRoutesExpand(table: Tenants.Table)
    requires Tenants.Valid(table) && DashedNamesDistinct(table)
    ensures TenantRoutes(table) == Expand(RoutedTenants(table))
  {
    RoutedInjective(table);
    AddTenantsAppends([], RoutedTenants(table));
  }

  /** The system router names are free after the tenants. */
  lemma SystemNamesFree(table: Tenants.Table, ss: seq<SystemDomain>)
    requires |ss| == 2
    ensures SystemName(ss[0].domain) !in NameSet(TenantRoutes(table))
    ensures SystemName(ss[1].domain) !in NameSet(TenantRoutes(table))
  {
    var cs := RoutedTenants(table);
    TenantNames([], cs);
    assert NameSet([]) == {};
    SystemNameNotTenant(ss[0].domain, DashedSet(cs));
    SystemNameNotTenant(ss[1].domain, DashedSet(cs));
  }

  /** Without shared dashed domains the table lists each active tenant's
      frontend and API routers in creation order, then the system routers. */
  lemma RoutesInCreationOrder(table: Tenants.Table, ss: seq<SystemDomain>)
    requires Tenants.Valid(table) && DashedNamesDistinct(table) && SystemsApart(ss)
    ensures BuildWith(table, ss) == Expand(RoutedTenants(table)) + [SystemEntry(ss[0]), SystemEntry(ss[1])]
  {
    TenantRoutesExpand(table);
    SystemNamesFree(table, ss);
    SystemsAppended(TenantRoutes(table), ss);
  }

  /** System routers with new names are appended. */
  lemma SystemsAppended(t: RouteTable, ss: seq<SystemDomain>)
    requires SystemsApart(ss)
    requires SystemName(ss[0].domain) !in NameSet(t) && SystemName(ss[1].domain) !in NameSet(t)
    ensures AddSystems(t, ss) == t + [SystemEntry(ss[0]), SystemEntry(ss[1])]
  {
    var e0 := SystemEntry(ss[0]);
    var e1 := SystemEntry(ss[1]);
    SystemsUnfold(t, ss);
    AssignNew(t, e0.name, e0.router);
    var t0 := t + [e0];
    assert Names(t0) == Names(t) + [e0.name];
    AssignNew(t0, e1.name, e1.router);
  }

  /** The expanded list holds tenant `i`'s routers at positions `2i` and
      `2i + 1`. */
  lemma {:induction false} ExpandAt(cs: seq<Tenants.Company>, i: nat)
    requires i < |cs|
    ensures Expand(cs)[2 * i] == Entry(FrontendName(cs[i].domain), FrontendRouter(cs[i].domain))
    ensures Expand(cs)[2 * i + 1] == Entry(ApiName(cs[i].domain), ApiRouter(cs[i].domain))
    decreases |cs|
  {
    if i > 0 {
      ExpandAt(cs[1..], i - 1);
      ExpandCons(cs);
      ExpandOne(cs[0]);
    }
  }

  /** `a.b` and `a-b` get the same router names. */
  lemma DotAndDashCollide()
    ensures FrontendName("a.b") == FrontendName("a-b")
    ensures ApiName("a.b") == ApiName("a-b")
  {
    Text.DotsToDashesCollide("a.b", "a-b");
    assert "a.b"[1] in ".-" && "a-b"[1] in ".-";
  }

  // ---------------------------------------------------------------------
  // The generated file

  /** One router in the generated YAML. */
  function RouterBlock(e: Entry): string {
    NameLine(e.name) + RouterBody(e.router)
  }

  /** The line that opens a router block. */
  function NameLine(name: string): string {
    "    " + name + ":\n"
  }

  function RouterBody(router: Router): string {
    "      rule: \"" + router.rule + "\"\n" +
    "      service: \"" + router.service + "\"\n" +
    "      tls:\n" +
    "        certResolver: \"" + CertResolver + "\"\n" +
    "      entryPoints:\n" +
    "        - \"" + EntryPoint + "\""
  }

  /** The comment header, stamped with the generation instant, and the
      opening of the router map. */
  function Header(stamp: string): string {
    "# Динамические маршруты для клиентских доменов\n" +
    "# Этот файл обновляется автоматически при изменении компаний\n" +
    "# Последнее обновление: " + stamp + "\n" +
    "\n" +
    "http:\n" +
    "  routers:\n"
  }

  /** The four services, the same in every generated file. */
  const Services :=
    "\n\n" +
    "  services:\n" +
    "    frontend-service:\n" +
    "      loadBalancer:\n" +
    "        servers:\n" +
    "          - url: \"http://frontend:4000\"\n" +
    "    backend-service:\n" +
    "      loadBalancer:\n" +
    "        servers:\n" +
    "          - url: \"http://backend:3500\"\n" +
    "    metaadmin-service:\n" +
    "      loadBalancer:\n" +
    "        servers:\n" +
    "          - url: \"http://metaadmin:3000\"\n" +
    "    traefik-service:\n" +
    "      loadBalancer:\n" +
    "        servers:\n" +
    "          - url: \"http://traefik:8080\"\n"

  function Blocks(t: RouteTable): (b: seq<string>)
    ensures |b| == |t| && forall k :: 0 <= k < |t| ==> b[k] == RouterBlock(t[k])
  {
    seq(|t|, i requires 0 <= i < |t| => RouterBlock(t[i]))
  }

  /** Every part of a joined list appears in a text that embeds it. */
  lemma JoinedPartInText(pre: string, parts: seq<string>, post: string, k: nat)
    requires k < |parts|
    ensures Text.Contains(pre + Text.Join(parts, "\n") + post, parts[k])
  {
    Text.JoinContainsParts(parts, "\n", k);
    Text.ContainsInConcat(pre, Text.Join(parts, "\n"), post, parts[k]);
  }

  lemma BlocksInLayout(head: string, t: RouteTable, tail: string, doc: string)
    requires doc == head + Text.Join(Blocks(t), "\n") + tail
    ensures forall e :: e in t ==> Text.Contains(doc, RouterBlock(e))
  {
    forall e | e in t ensures Text.Contains(doc, RouterBlock(e)) {
      var k :| 0 <= k < |t| && t[k] == e;
      JoinedPartInText(head, Blocks(t), tail, k);
    }
  }

  /** The routers of `t` as blocks between a fixed head and tail. */
  function Layout(head: string, t: RouteTable, tail: string): (doc: string)
    ensures forall e :: e in t ==> Text.Contains(doc, RouterBlock(e))
  {
    var doc := head + Text.Join(Blocks(t), "\n") + tail;
    BlocksInLayout(head, t, tail, doc);
    doc
  }

  /** The YAML text: every router of the table appears as its own block. */
  function RenderYaml(t: RouteTable, stamp: string): (doc: string)
    ensures forall e :: e in t ==> Text.Contains(doc, RouterBlock(e))
  {
    Layout(Header(stamp), t, Services)
  }

  /** The whole generated text: the stamped header, then every router's
      block, in the table's order, with one newline between neighbours, then
      the services, and nothing else. */
  lemma RenderYamlLayout(t: RouteTable, stamp: string)
    ensures Text.Framed(RenderYaml(t, stamp), Header(stamp), Blocks(t), "\n", Services)
    ensures |Blocks(t)| == |t| && forall k :: 0 <= k < |t| ==> Blocks(t)[k] == RouterBlock(t[k])
  {
    Text.JoinIsFramed(Header(stamp), Blocks(t), "\n", Services);
  }

  /** A router present in the table has its name line in the file. */
  lemma BlockNamed(t: RouteTable, doc: string, name: string)
    requires forall e :: e in t ==> Text.Contains(doc, RouterBlock(e))
    requires Lookup(t, name).Some?
    ensures Text.Contains(doc, NameLine(name))
  {
    var e := Entry(name, Lookup(t, name).value);
    assert Text.Contains(doc, RouterBlock(e));
    var line := NameLine(name);
    assert RouterBlock(e)[..|line|] == line;
    Text.ContainsStartOf(doc, RouterBlock(e), line);
  }

  /** Both router blocks of an active tenant are in a file listing the
      table's routers. */
  lemma TenantBlocksInFile(table: Tenants.Table, ss: seq<SystemDomain>, doc: string, c: Tenants.Company)
    requires |ss| == 2
    requires c in table.rows && c.status == Tenants.Active
    requires forall e :: e in BuildWith(table, ss) ==> Text.Contains(doc, RouterBlock(e))
    ensures Text.Contains(doc, NameLine(FrontendName(c.domain)))
    ensures Text.Contains(doc, NameLine(ApiName(c.domain)))
  {
    var t := BuildWith(table, ss);
    ActiveTenantRouted(table, ss, c);
    BlockNamed(t, doc, FrontendName(c.domain));
    BlockNamed(t, doc, ApiName(c.domain));
  }

  /** Every active tenant has a frontend and an API router block in `doc`. */
  predicate ListsActiveTenants(table: Tenants.Table, doc: string) {
    forall c :: c in table.rows && c.status == Tenants.Active ==>
      && Text.Contains(doc, NameLine(FrontendName(c.domain)))
      && Text.Contains(doc, NameLine(ApiName(c.domain)))
  }

  /** A file listing the table's routers lists every active tenant. */
  lemma AllTenantBlocksInFile(table: Tenants.Table, ss: seq<SystemDomain>, doc: string)
    requires |ss| == 2
    requires forall e :: e in BuildWith(table, ss) ==> Text.Contains(doc, RouterBlock(e))
    ensures ListsActiveTenants(table, doc)
  {
    forall c | c in table.rows && c.status == Tenants.Active
      ensures Text.Contains(doc, NameLine(FrontendName(c.domain)))
      ensures Text.Contains(doc, NameLine(ApiName(c.domain)))
    {
      TenantBlocksInFile(table, ss, doc, c);
    }
  }

  /** The file for system domains `ss`: every active tenant has a frontend
      and an API router block in it. */
  function RenderFile(table: Tenants.Table, ss: seq<SystemDomain>, stamp: string): (doc: string)
    requires |ss| == 2
    ensures ListsActiveTenants(table, doc)
  {
    var doc := RenderYaml(BuildWith(table, ss), stamp);
    AllTenantBlocksInFile(table, ss, doc);
    doc
  }

  /** `updateTraefikRoutes()` at instant `stamp`: the file content to write
      in production; nothing in development. Every active tenant has a
      frontend and an API router block in the file. */
  function UpdateRoutes(production: bool, table: Tenants.Table, stamp: string): (file: Option<string>)
    ensures file.None? <==> !production
    ensures file.Some? ==> ListsActiveTenants(table, file.value)
  {
    if production then
      var doc := RenderFile(table, SystemDomains, stamp);
      Some(doc)
    else None
  }
}
