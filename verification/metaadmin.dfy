/** The meta-admin API: `POST /api/meta/login`, which sets the `isLogged`
    cookie, the `checkMetaAuth` gate in front of the tenant endpoints, and
    those endpoints (`GET`, `POST /api/meta/companies`, `PUT` and `DELETE
    /api/meta/companies/:id`). Any error the store raises (a duplicate domain,
    a status outside the enum) is answered with 500 and changes no row. */
module MetaAdmin {
  import opened Js
  import Tenants

  const MetaAdminName := "admin"
  const MetaAdminPassword := "qwerty"

  /** The session cookie: `isLogged=true` for 30 days, HTTP-only, `secure`
      in production. */
  const SessionCookie := "isLogged"
  const SessionValue := "true"
  const SessionMaxAgeMs: nat := 30 * 24 * 60 * 60 * 1000

  datatype Cookie = Cookie(name: string, value: string, maxAgeMs: nat, httpOnly: bool, secure: bool)

  datatype LoginReply = LoginRequired | LoggedIn(cookie: Cookie) | LoginRejected {
    function Status(): nat {
      match this
      case LoginRequired => 400
      case LoggedIn(_) => 200
      case LoginRejected => 401
    }
  }

  /** `checkMetaAuth`: the `isLogged` cookie must be exactly `"true"`. */
  predicate Authorized(isLogged: Option<string>) {
    isLogged == Some(SessionValue)
  }

  /** `POST /api/meta/login` with body `{ username, password }`. */
  function Login(production: bool, username: Field, password: Field): (r: LoginReply)
    ensures !(Truthy(username) && Truthy(password)) ==> r == LoginRequired
    ensures Truthy(username) && Truthy(password) && !r.LoggedIn? ==> r == LoginRejected
    ensures r.LoggedIn? <==> username == Str(MetaAdminName) && password == Str(MetaAdminPassword)
    ensures r.LoggedIn? ==>
      && r.cookie.name == SessionCookie
      && Authorized(Some(r.cookie.value))
      && r.cookie.maxAgeMs == 2592000000
      && r.cookie.httpOnly
      && r.cookie.secure == production
  {
    if !Truthy(username) || !Truthy(password) then LoginRequired
    else if username.s == MetaAdminName && password.s == MetaAdminPassword then
      LoggedIn(Cookie(SessionCookie, SessionValue, SessionMaxAgeMs, true, production))
    else LoginRejected
  }

  /** The cookie a successful login sets passes `checkMetaAuth`: with it,
      the listing is answered. */
  lemma LoginCookieOpensListing(production: bool, t: Tenants.Table)
    ensures var r := Login(production, Str(MetaAdminName), Str(MetaAdminPassword));
      && r.LoggedIn?
      && Authorized(Some(r.cookie.value))
      && List(Some(r.cookie.value), t).Listing?
  {
  }

  /** A JSON body for create or update. */
  datatype CompanyBody = CompanyBody(name: Field, domain: Field, description: Field, logo: Field, status: Field)

  datatype Reply =
    | Unauthorized
    | BadRequest
    | NotFound
    | ServerError
    | Listing(companies: seq<Tenants.Company>)
    | Created(company: Tenants.Company)
    | Updated(company: Tenants.Company)
    | Deleted
  {
    function Status(): nat {
      match this
      case Unauthorized => 401
      case BadRequest => 400
      case NotFound => 404
      case ServerError => 500
      case Listing(_) => 200
      case Created(_) => 201
      case Updated(_) => 200
      case Deleted => 200
    }

    /** A reply after which the route configuration is regenerated. */
    predicate Mutated() {
      Created? || Updated? || Deleted?
    }
  }

  /** `GET /api/meta/companies`: every tenant, newest first. */
  function List(isLogged: Option<string>, t: Tenants.Table): (r: Reply)
    ensures !Authorized(isLogged) <==> r == Unauthorized
    ensures Authorized(isLogged) ==> r.Listing?
    ensures r.Listing? ==>
      && multiset(r.companies) == multiset(t.rows)
      && forall i, j :: 0 <= i < j < |r.companies| ==> r.companies[i].createdAt >= r.companies[j].createdAt
  {
    if !Authorized(isLogged) then Unauthorized
    else Listing(Tenants.ByCreation(t.rows, true))
  }

  /** The attributes `POST` hands to the store: `description` and `logo`
      default to the empty string and `status` is always `active`. */
  function CreateDraft(body: CompanyBody): (d: Tenants.Draft)
    requires Truthy(body.name) && Truthy(body.domain)
  {
    Tenants.Draft(body.name.s, body.domain.s,
                  Some(Or(body.description, "")), Some(Or(body.logo, "")),
                  Some(Tenants.Active))
  }

  /** `POST /api/meta/companies` at instant `now`. */
  function Create(isLogged: Option<string>, body: CompanyBody, now: int, t: Tenants.Table): (r: (Reply, Tenants.Table))
    requires Tenants.Valid(t)
    ensures Tenants.Valid(r.1)
    ensures !Authorized(isLogged) ==> r == (Unauthorized, t)
    ensures Authorized(isLogged) && !(Truthy(body.name) && Truthy(body.domain)) ==> r == (BadRequest, t)
    ensures r.0.Created? || r.0 == ServerError ==> Truthy(body.name) && Truthy(body.domain)
    ensures r.0 == ServerError <==>
      Authorized(isLogged) && Truthy(body.name) && Truthy(body.domain) && Tenants.DomainTaken(t, body.domain.s)
    ensures r.0 == ServerError ==> r.1.rows == t.rows
    ensures (Authorized(isLogged) && Truthy(body.name) && Truthy(body.domain)
             && !Tenants.DomainTaken(t, body.domain.s)) ==> r.0.Created?
    ensures r.0.Created? ==>
      var c := r.0.company;
      && c.name == body.name.s && c.domain == body.domain.s
      && c.description == Some(Or(body.description, ""))
      && c.logo == Some(Or(body.logo, ""))
      && c.status == Tenants.Active
      && c.createdAt == now && c.updatedAt == now
      && !Tenants.IdExists(t, c.id)
      && r.1.rows == t.rows + [c]
  {
    if !Authorized(isLogged) then (Unauthorized, t)
    else if !Truthy(body.name) || !Truthy(body.domain) then (BadRequest, t)
    else
      var w := Tenants.Insert(t, CreateDraft(body), now);
      match w.row
      case None => (ServerError, w.table)
      case Some(c) => (Created(c), w.table)
  }

  /** The row `PUT` asks the store to write: `name`, `domain` and `status`
      keep their old value when the new one is falsy, `description` and
      `logo` only when it is `undefined`. A status outside the enum is
      refused (`None`). */
  function Merge(prior: Tenants.Company, body: CompanyBody): (m: Option<Tenants.Company>)
    ensures m.None? <==> Truthy(body.status) && Tenants.ParseStatus(body.status.s).None?
    ensures m.Some? ==>
      && m.value.id == prior.id
      && m.value.name == Or(body.name, prior.name)
      && m.value.domain == Or(body.domain, prior.domain)
      && m.value.description == UnlessUndefined(body.description, prior.description)
      && m.value.logo == UnlessUndefined(body.logo, prior.logo)
      && (Truthy(body.status) ==> Tenants.StatusLabel(m.value.status) == body.status.s)
      && (!Truthy(body.status) ==> m.value.status == prior.status)
      && m.value.createdAt == prior.createdAt && m.value.updatedAt == prior.updatedAt
  {
    var status := if Truthy(body.status) then Tenants.ParseStatus(body.status.s) else Some(prior.status);
    match status
    case None => None
    case Some(s) =>
      Some(prior.(name := Or(body.name, prior.name),
                  domain := Or(body.domain, prior.domain),
                  description := UnlessUndefined(body.description, prior.description),
                  logo := UnlessUndefined(body.logo, prior.logo),
                  status := s))
  }

  /** `PUT /api/meta/companies/:id` at instant `now`. */
  function Update(isLogged: Option<string>, id: nat, body: CompanyBody, now: int, t: Tenants.Table): (r: (Reply, Tenants.Table))
    requires Tenants.Valid(t)
    ensures Tenants.Valid(r.1)
    ensures !Authorized(isLogged) ==> r == (Unauthorized, t)
    ensures Authorized(isLogged) && !Tenants.IdExists(t, id) ==> r == (NotFound, t)
    ensures !r.0.Updated? ==> r.1 == t
    ensures r.0.Unauthorized? || r.0.NotFound? || r.0.ServerError? || r.0.Updated?
    ensures Authorized(isLogged) && Tenants.IdExists(t, id) ==> r.0.ServerError? || r.0.Updated?
    ensures Authorized(isLogged) && Tenants.IdExists(t, id) ==>
      var prior := Tenants.FindById(t, id).value;
      && (r.0 == ServerError <==>
            Merge(prior, body).None? ||
            exists c :: c in t.rows && c.id != id && c.domain == Merge(prior, body).value.domain)
      && (r.0.Updated? ==>
            && Merge(prior, body).Some?
            && var m := Merge(prior, body).value;
            && r.0.company == (if m == prior then prior else m.(updatedAt := now))
            && Tenants.FindById(r.1, id) == Some(r.0.company)
            && |r.1.rows| == |t.rows|
            && (forall c :: c in t.rows && c.id != id ==> c in r.1.rows)
            && (forall c :: c in r.1.rows && c.id != id ==> c in t.rows))
  {
    if !Authorized(isLogged) then (Unauthorized, t)
    else
      match Tenants.FindById(t, id)
      case None => (NotFound, t)
      case Some(prior) =>
        match Merge(prior, body)
        case None => (ServerError, t)
        case Some(m) =>
          var w := Tenants.UpdateRow(t, id, m, now);
          match w.row
          case None => (ServerError, t)
          case Some(c) =>
            Tenants.FindByIdUnique(w.table, c);
            (Updated(c), w.table)
  }

  /** `DELETE /api/meta/companies/:id`. */
  function Delete(isLogged: Option<string>, id: nat, t: Tenants.Table): (r: (Reply, Tenants.Table))
    requires Tenants.Valid(t)
    ensures Tenants.Valid(r.1)
    ensures !Authorized(isLogged) ==> r == (Unauthorized, t)
    ensures Authorized(isLogged) && !Tenants.IdExists(t, id) ==> r == (NotFound, t)
    ensures Authorized(isLogged) && Tenants.IdExists(t, id) ==>
      && r.0 == Deleted
      && |r.1.rows| == |t.rows| - 1
      && (forall c :: c in r.1.rows <==> c in t.rows && c.id != id)
  {
    if !Authorized(isLogged) then (Unauthorized, t)
    else if !Tenants.IdExists(t, id) then (NotFound, t)
    else (Deleted, Tenants.DeleteRow(t, id))
  }

  /** An update whose body sets nothing rewrites nothing, not even
      `updatedAt`. */
  lemma EmptyUpdateChangesNothing(isLogged: Option<string>, c: Tenants.Company, now: int, t: Tenants.Table)
    requires Tenants.Valid(t) && Authorized(isLogged) && c in t.rows
    ensures Update(isLogged, c.id, CompanyBody(Undefined, Undefined, Undefined, Undefined, Undefined), now, t) ==
      (Updated(c), t)
  {
    assert Merge(c, CompanyBody(Undefined, Undefined, Undefined, Undefined, Undefined)) == Some(c);
    UpdateApplies(isLogged, c, CompanyBody(Undefined, Undefined, Undefined, Undefined, Undefined), now, t);
  }

  /** Repeating an update changes nothing further: the second request finds
      the row already as the first one left it. */
  lemma UpdateIsIdempotent(isLogged: Option<string>, id: nat, body: CompanyBody, now1: int, now2: int, t: Tenants.Table)
    requires Tenants.Valid(t)
    ensures var (reply1, t1) := Update(isLogged, id, body, now1, t);
      reply1.Updated? ==> Update(isLogged, id, body, now2, t1) == (reply1, t1)
  {
    var (reply1, t1) := Update(isLogged, id, body, now1, t);
    if reply1.Updated? {
      var c := reply1.company;
      // Merging the same body into the merged row yields it again.
      assert Merge(c, body) == Some(c);
      assert c in t1.rows;
      UpdateApplies(isLogged, c, body, now2, t1);
    }
  }

  /** The empty string clears `description` and `logo` but cannot clear
      `name`, `domain` or `status`, which keep their values. */
  lemma EmptyStringClearsOnlyNullableFields(isLogged: Option<string>, c: Tenants.Company, now: int, t: Tenants.Table)
    requires Tenants.Valid(t) && Authorized(isLogged) && c in t.rows
    ensures var (reply, _) := Update(isLogged, c.id, CompanyBody(Str(""), Str(""), Str(""), Str(""), Str("")), now, t);
      && reply.Updated?
      && reply.company.name == c.name && reply.company.domain == c.domain && reply.company.status == c.status
      && reply.company.description == Some("") && reply.company.logo == Some("")
  {
    var body := CompanyBody(Str(""), Str(""), Str(""), Str(""), Str(""));
    var m := c.(description := Some(""), logo := Some(""));
    assert Merge(c, body) == Some(m);
    UpdateApplies(isLogged, c, body, now, t);
  }

  /** An update of an existing row whose merged domain is still its own
      goes through with the merged row. */
  lemma UpdateApplies(isLogged: Option<string>, c: Tenants.Company, body: CompanyBody, now: int, t: Tenants.Table)
    requires Tenants.Valid(t) && Authorized(isLogged) && c in t.rows
    requires Merge(c, body).Some? && Merge(c, body).value.domain == c.domain
    ensures var m := Merge(c, body).value;
      Update(isLogged, c.id, body, now, t).0 == Updated(if m == c then c else m.(updatedAt := now))
    ensures Merge(c, body) == Some(c) ==> Update(isLogged, c.id, body, now, t).1 == t
  {
    Tenants.FindByIdUnique(t, c);
    Tenants.DomainOwnedOnlyBy(t, c);
    var w := Tenants.UpdateRow(t, c.id, Merge(c, body).value, now);
    assert w.row.Some?;
  }

  /** The status a client sends on create is ignored. */
  lemma CreateIgnoresStatus(isLogged: Option<string>, body: CompanyBody, status: Field, now: int, t: Tenants.Table)
    requires Tenants.Valid(t)
    ensures Create(isLogged, body.(status := status), now, t) == Create(isLogged, body, now, t)
  {
  }

  /** Creating a tenant whose domain is already taken fails and adds no row;
      in particular the same create cannot succeed twice. */
  lemma CreateTwiceFails(isLogged: Option<string>, body: CompanyBody, now1: int, now2: int, t: Tenants.Table)
    requires Tenants.Valid(t)
    ensures var (reply1, t1) := Create(isLogged, body, now1, t);
      var (reply2, t2) := Create(isLogged, body, now2, t1);
      reply1.Created? ==> reply2 == ServerError && t2.rows == t1.rows
  {
    var (reply1, t1) := Create(isLogged, body, now1, t);
    if reply1.Created? {
      assert reply1.company in t1.rows;
    }
  }

  /** A created tenant is listed, and a deleted one is not. */
  lemma ListingReflectsCreateAndDelete(isLogged: Option<string>, body: CompanyBody, now: int, t: Tenants.Table)
    requires Tenants.Valid(t) && Authorized(isLogged)
    ensures var (reply, t1) := Create(isLogged, body, now, t);
      reply.Created? ==>
        && reply.company in List(isLogged, t1).companies
        && var (_, t2) := Delete(isLogged, reply.company.id, t1);
           forall c :: c in List(isLogged, t2).companies ==> c.id != reply.company.id
  {
    var (reply, t1) := Create(isLogged, body, now, t);
    if reply.Created? {
      var l1 := List(isLogged, t1).companies;
      assert reply.company in t1.rows;
      assert reply.company in multiset(l1);
      Tenants.FindByIdUnique(t1, reply.company);
      var (_, t2) := Delete(isLogged, reply.company.id, t1);
      var l2 := List(isLogged, t2).companies;
      forall c | c in l2 ensures c.id != reply.company.id {
        assert c in multiset(t2.rows);
      }
    }
  }
}
