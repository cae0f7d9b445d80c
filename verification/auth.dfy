/** The tenant-facing handlers: `POST /api/login`, which checks one fixed
    credential pair and records every attempt against the resolved tenant,
    and `GET /api/logs`, which returns that tenant's latest attempts. The
    tenant is whatever the resolution middleware attached (`req.company`). */
module Auth {
  import opened Js
  import Tenants
  import AccessLog
  import Sorting

  /** The one credential pair `/api/login` accepts. */
  const AdminName := "admin"
  const AdminPassword := "qwerty123"

  /** How many log rows `/api/logs` returns at most. */
  const LogPageSize: nat := 50

  /** What the client is, as Express reports it; opaque to the handler. */
  datatype Client = Client(ip: Option<string>, userAgent: Option<string>)

  datatype LoginReply =
    | CompanyNotFound
    | CredentialsRequired
    | Authenticated(user: string, company: Tenants.Company)
    | InvalidCredentials
  {
    function Status(): nat {
      match this
      case CompanyNotFound => 404
      case CredentialsRequired => 400
      case Authenticated(_, _) => 200
      case InvalidCredentials => 401
    }
  }

  predicate IsAdmin(name: string, password: string) {
    name == AdminName && password == AdminPassword
  }

  /** The log row written for an attempt. */
  function AttemptFields(tenant: Tenants.Company, username: string, success: bool, client: Client): AccessLog.Fields {
    AccessLog.Fields(username, success, client.ip, client.userAgent, tenant.id)
  }

  /** `POST /api/login` with body `{ name, password }` at instant `now`. */
  function Login(tenant: Option<Tenants.Company>, name: Field, password: Field,
                 client: Client, now: int, logs: AccessLog.Table): (r: (LoginReply, AccessLog.Table))
    requires AccessLog.Valid(logs)
    ensures AccessLog.Valid(r.1)
    ensures tenant.None? <==> r.0 == CompanyNotFound
    ensures tenant.None? ==> r.1 == logs
    ensures tenant.Some? ==>
      && |r.1.rows| == |logs.rows| + 1
      && r.1.rows[..|logs.rows|] == logs.rows
      && var e := r.1.rows[|logs.rows|];
         && e.companyId == tenant.value.id
         && e.timestamp == now
         && e.ipAddress == client.ip && e.userAgent == client.userAgent
         && (e.success <==> r.0.Authenticated?)
         && e.username == Or(name, "unknown")
    ensures tenant.Some? && !(Truthy(name) && Truthy(password)) ==> r.0 == CredentialsRequired
    ensures tenant.Some? && Truthy(name) && Truthy(password) ==>
      (r.0.Authenticated? <==> IsAdmin(name.s, password.s)) &&
      (r.0.Authenticated? || r.0 == InvalidCredentials)
    ensures r.0.Authenticated? ==> r.0.user == AdminName && Some(r.0.company) == tenant
  {
    match tenant
    case None => (CompanyNotFound, logs)
    case Some(company) =>
      if !Truthy(name) || !Truthy(password) then
        var logs' := AccessLog.Append(logs, AttemptFields(company, Or(name, "unknown"), false, client), now);
        assert logs'.rows[..|logs.rows|] == logs.rows;
        (CredentialsRequired, logs')
      else
        var ok := IsAdmin(name.s, password.s);
        var logs' := AccessLog.Append(logs, AttemptFields(company, name.s, ok, client), now);
        assert logs'.rows[..|logs.rows|] == logs.rows;
        (if ok then Authenticated(name.s, company) else InvalidCredentials, logs')
  }

  datatype LogsReply = LogsCompanyNotFound | LogPage(rows: seq<AccessLog.Entry>) {
    function Status(): nat {
      if LogsCompanyNotFound? then 404 else 200
    }
  }

  /** `GET /api/logs`: the tenant's rows, newest first, at most one page. */
  function Logs(tenant: Option<Tenants.Company>, logs: AccessLog.Table): (r: LogsReply)
    ensures tenant.None? <==> r == LogsCompanyNotFound
    ensures r.LogPage? ==>
      && |r.rows| == Sorting.Min(LogPageSize, |AccessLog.ForCompany(logs.rows, tenant.value.id)|)
      && multiset(r.rows) <= multiset(AccessLog.ForCompany(logs.rows, tenant.value.id))
      && (forall e :: e in r.rows ==> e in logs.rows && e.companyId == tenant.value.id)
      && (forall i, j :: 0 <= i < j < |r.rows| ==> r.rows[i].timestamp >= r.rows[j].timestamp)
      && (forall e, f :: e in r.rows && f in logs.rows && f.companyId == tenant.value.id && f !in r.rows ==>
            f.timestamp <= e.timestamp)
  {
    match tenant
    case None => LogsCompanyNotFound
    case Some(company) =>
      var page := AccessLog.Newest(logs.rows, company.id, LogPageSize);
      var own := AccessLog.ForCompany(logs.rows, company.id);
      assert forall f :: f in logs.rows && f.companyId == company.id && f !in page ==>
        f in multiset(own) - multiset(page) by {
        forall f | f in logs.rows && f.companyId == company.id && f !in page
          ensures f in multiset(own) - multiset(page)
        {
          assert f in own;
          assert multiset(page)[f] == 0;
        }
      }
      LogPage(page)
  }

  /** An attempt made later than every recorded one heads the tenant's next
      log page, with its outcome. */
  lemma LatestAttemptHeadsLogPage(tenant: Tenants.Company, name: Field, password: Field,
                                  client: Client, now: int, logs: AccessLog.Table)
    requires AccessLog.Valid(logs)
    requires forall e :: e in logs.rows ==> e.timestamp < now
    ensures var (reply, logs') := Login(Some(tenant), name, password, client, now, logs);
      var page := Logs(Some(tenant), logs');
      && page.LogPage? && |page.rows| > 0
      && page.rows[0] == logs'.rows[|logs.rows|]
      && page.rows[0].success == (reply.Status() == 200)
  {
    var (reply, logs') := Login(Some(tenant), name, password, client, now, logs);
    var latest := logs'.rows[|logs.rows|];
    assert logs'.rows == logs.rows + [latest];
    assert latest.companyId == tenant.id;
    AccessLog.NewestStartsWithLatest(logs.rows, latest, LogPageSize);
    assert Logs(Some(tenant), logs') == LogPage(AccessLog.Newest(logs'.rows, tenant.id, LogPageSize));
  }
}
