/** The start-up seeding of the database: two tenants (`localhost` for
    development, `justcreatedsite.ru` for production), three sample login
    attempts and the meta-admin account, each written with `findOrCreate`.
    The instants `new Date()` and the column defaults read are parameters. */
module Seeding {
  import opened Js
  import Tenants
  import AccessLog

  // ---------------------------------------------------------------------
  // The `meta_users` table

  /** One row of `meta_users`; `username` is UNIQUE and the password is
      stored as given. */
  datatype MetaUser = MetaUser(id: nat, username: string, password: string, createdAt: int, updatedAt: int)

  datatype MetaUsers = MetaUsers(rows: seq<MetaUser>, nextId: nat)

  predicate MetaUsersValid(m: MetaUsers) {
    && (forall i :: 0 <= i < |m.rows| ==> m.rows[i].id < m.nextId)
    && (forall i, j :: 0 <= i < j < |m.rows| ==> m.rows[i].id != m.rows[j].id)
    && (forall i, j :: 0 <= i < j < |m.rows| ==> m.rows[i].username != m.rows[j].username)
  }

  /** The three tables seeding writes. */
  datatype Db = Db(companies: Tenants.Table, logs: AccessLog.Table, metaUsers: MetaUsers)

  predicate DbValid(db: Db) {
    Tenants.Valid(db.companies) && AccessLog.Valid(db.logs) && MetaUsersValid(db.metaUsers)
  }

  // ---------------------------------------------------------------------
  // The seeded values

  const DevDomain := "localhost"
  const ProdDomain := "justcreatedsite.ru"

  const DevCompany := Tenants.Draft("Test Company", DevDomain,
    Some("Тестовая компания для разработки"), Some(""), Some(Tenants.Active))
  const ProdCompany := Tenants.Draft("Just Created Site", ProdDomain,
    Some("Основная компания для продакшена"), Some(""), Some(Tenants.Active))

  const TestBrowser := "Mozilla/5.0 (Test Browser)"
  const ProductionBrowser := "Mozilla/5.0 (Production Browser)"

  /** The sample attempts for the development tenant. */
  function DevLogs(companyId: nat): seq<AccessLog.Fields> {
    [ AccessLog.Fields("admin", true, Some("127.0.0.1"), Some(TestBrowser), companyId),
      AccessLog.Fields("test_user", false, Some("192.168.1.100"), Some(TestBrowser), companyId) ]
  }

  /** The sample attempt for the production tenant. */
  function ProdLogs(companyId: nat): seq<AccessLog.Fields> {
    [ AccessLog.Fields("admin", true, Some("127.0.0.1"), Some(ProductionBrowser), companyId) ]
  }

  const MetaAdminName := "admin"
  const MetaAdminPassword := "qwerty"

  /** The value of `new Date()` at each call that reads it, in order. */
  datatype Clock = Clock(devCompany: int, prodCompany: int, devLogs: seq<int>, prodLogs: seq<int>, metaUser: int)

  predicate ClockFits(clock: Clock) {
    |clock.devLogs| == 2 && |clock.prodLogs| == 1
  }

  // ---------------------------------------------------------------------
  // findOrCreate on each table

  /** `Company.findOrCreate({ where: { domain }, defaults })`: the row with
      that domain if there is one, otherwise a new row from the defaults. */
  function FindOrCreateCompany(t: Tenants.Table, d: Tenants.Draft, now: int): (r: (Tenants.Company, Tenants.Table))
    requires Tenants.Valid(t)
    ensures Tenants.Valid(r.1)
    ensures r.0 in r.1.rows && r.0.domain == d.domain
    ensures Tenants.DomainTaken(t, d.domain) ==> r.1 == t && r.0 in t.rows
    ensures !Tenants.DomainTaken(t, d.domain) ==>
      && r.0 == Tenants.NewRow(t, d, now)
      && r.1.rows == t.rows + [r.0] && r.1.nextId == t.nextId + 1
      && !Tenants.IdExists(t, r.0.id)
    ensures t.rows <= r.1.rows && |r.1.rows| <= |t.rows| + 1
    ensures forall c :: c in r.1.rows && c !in t.rows ==> c == r.0 && c.status == d.status.GetOr(Tenants.Active)
  {
    match Tenants.FindByDomain(t, d.domain)
    case Some(c) => (c, t)
    case None =>
      var w := Tenants.Insert(t, d, now);
      (w.row.value, w.table)
  }

  /** An attempt with this username, company and instant. */
  predicate LogMatches(e: AccessLog.Entry, f: AccessLog.Fields, now: int) {
    e.username == f.username && e.companyId == f.companyId && e.timestamp == now
  }

  /** The first row matching, if any. */
  function FindLog(rows: seq<AccessLog.Entry>, f: AccessLog.Fields, now: int): (r: Option<AccessLog.Entry>)
    ensures r.None? <==> forall e :: e in rows ==> !LogMatches(e, f, now)
    ensures r.Some? ==> r.value in rows && LogMatches(r.value, f, now)
    decreases |rows|
  {
    if |rows| == 0 then None
    else if LogMatches(rows[0], f, now) then Some(rows[0])
    else
      var r := FindLog(rows[1..], f, now);
      assert forall e :: e in rows ==> e == rows[0] || e in rows[1..];
      r
  }

  /** `Log.findOrCreate({ where: { username, companyId, timestamp: now },
      defaults })`: a new row unless one with the same username, company
      and instant exists. The created row takes its instant from `where`. */
  function FindOrCreateLog(t: AccessLog.Table, f: AccessLog.Fields, now: int): (r: (AccessLog.Entry, AccessLog.Table))
    requires AccessLog.Valid(t)
    ensures AccessLog.Valid(r.1)
    ensures r.0 in r.1.rows && LogMatches(r.0, f, now)
    ensures (exists e :: e in t.rows && LogMatches(e, f, now)) ==> r.1 == t
    ensures (forall e :: e in t.rows ==> !LogMatches(e, f, now)) ==>
      && r.1 == AccessLog.Table(t.rows + [AccessLog.ToEntry(t.nextId, f, now)], t.nextId + 1)
      && r.0 == AccessLog.ToEntry(t.nextId, f, now)
  {
    match FindLog(t.rows, f, now)
    case Some(e) => (e, t)
    case None =>
      var t' := AccessLog.Append(t, f, now);
      (AccessLog.ToEntry(t.nextId, f, now), t')
  }

  /** The `for ... of` loop: one findOrCreate per sample, in order. */
  function FindOrCreateLogs(t: AccessLog.Table, fs: seq<AccessLog.Fields>, times: seq<int>): (r: AccessLog.Table)
    requires AccessLog.Valid(t)
    requires |fs| == |times|
    ensures AccessLog.Valid(r)
    ensures t.rows <= r.rows && |r.rows| <= |t.rows| + |fs|
    ensures SamplesApart(fs, times) && Unmatched(t.rows, fs, times) ==>
      r.rows == t.rows + Appended(t.nextId, fs, times) && r.nextId == t.nextId + |fs|
    decreases |fs|
  {
    if |fs| == 0 then t
    else
      var t1 := FindOrCreateLog(t, fs[0], times[0]).1;
      var r := FindOrCreateLogs(t1, fs[1..], times[1..]);
      assert t.rows <= t1.rows;
      assert SamplesApart(fs, times) && Unmatched(t.rows, fs, times) ==>
        r.rows == t.rows + Appended(t.nextId, fs, times) && r.nextId == t.nextId + |fs| by {
        if SamplesApart(fs, times) && Unmatched(t.rows, fs, times) {
          var e0 := AccessLog.ToEntry(t.nextId, fs[0], times[0]);
          FirstCreated(t, fs, times);
          RestApart(fs, times);
          RestUnmatched(t, t1, e0, fs, times);
          AppendedUnfold(t.nextId, t1.nextId, fs, times);
          ConsAppend(r.rows, t1.rows, t.rows, e0, Appended(t1.nextId, fs[1..], times[1..]), Appended(t.nextId, fs, times));
        }
      }
      r
  }


  /** The row with this username, if any. */
  function FindMetaUser(rows: seq<MetaUser>, username: string): (r: Option<MetaUser>)
    ensures r.None? <==> forall u :: u in rows ==> u.username != username
    ensures r.Some? ==> r.value in rows && r.value.username == username
    decreases |rows|
  {
    if |rows| == 0 then None
    else if rows[0].username == username then Some(rows[0])
    else
      var r := FindMetaUser(rows[1..], username);
      assert forall u :: u in rows ==> u == rows[0] || u in rows[1..];
      r
  }

  /** `MetaUser.findOrCreate({ where: { username }, defaults })`. */
  function FindOrCreateMetaUser(m: MetaUsers, username: string, password: string, now: int): (r: (MetaUser, MetaUsers))
    requires MetaUsersValid(m)
    ensures MetaUsersValid(r.1)
    ensures r.0 in r.1.rows && r.0.username == username
    ensures (exists u :: u in m.rows && u.username == username) ==> r.1 == m && r.0 in m.rows
    ensures (forall u :: u in m.rows ==> u.username != username) ==>
      && r.0 == MetaUser(m.nextId, username, password, now, now)
      && r.1.rows == m.rows + [r.0]
    ensures m.rows <= r.1.rows && |r.1.rows| <= |m.rows| + 1
    ensures forall u :: u in r.1.rows && u !in m.rows ==> u == r.0 && u.password == password
  {
    match FindMetaUser(m.rows, username)
    case Some(u) => (u, m)
    case None =>
      var u := MetaUser(m.nextId, username, password, now, now);
      var m' := MetaUsers(m.rows + [u], m.nextId + 1);
      assert forall i :: 0 <= i < |m.rows| ==> m'.rows[i] == m.rows[i] && m.rows[i] in m.rows;
      (u, m')
  }

  // ---------------------------------------------------------------------
  // fillInitDb

  /** The two tenants, development first. */
  function SeedCompanies(t: Tenants.Table, clock: Clock): (r: (Tenants.Company, Tenants.Company, Tenants.Table))
    requires Tenants.Valid(t)
    ensures Tenants.Valid(r.2)
    ensures r.0 in r.2.rows && r.0.domain == DevDomain
    ensures r.1 in r.2.rows && r.1.domain == ProdDomain
    ensures forall c :: c in t.rows ==> c in r.2.rows
    ensures t.rows <= r.2.rows && |r.2.rows| <= |t.rows| + 2
    ensures forall c :: c in r.2.rows && c !in t.rows ==>
      (c == r.0 || c == r.1) && c.status == Tenants.Active
  {
    var (dev, c1) := FindOrCreateCompany(t, DevCompany, clock.devCompany);
    var (prod, c2) := FindOrCreateCompany(c1, ProdCompany, clock.prodCompany);
    (dev, prod, c2)
  }

  /** The sample attempts, development tenant's first. */
  function SeedLogs(t: AccessLog.Table, devId: nat, prodId: nat, clock: Clock): (r: AccessLog.Table)
    requires AccessLog.Valid(t) && ClockFits(clock)
    ensures AccessLog.Valid(r)
    ensures t.rows <= r.rows && |r.rows| <= |t.rows| + 3
  {
    var l1 := FindOrCreateLogs(t, DevLogs(devId), clock.devLogs);
    var l2 := FindOrCreateLogs(l1, ProdLogs(prodId), clock.prodLogs);
    l2
  }

  /** The seeded database, with the two companies `findOrCreate` returned. */
  datatype Seeded = Seeded(db: Db, dev: Tenants.Company, prod: Tenants.Company)

  /** `fillInitDb()`. */
  function Seed(db: Db, clock: Clock): (s: Seeded)
    requires DbValid(db) && ClockFits(clock)
    ensures DbValid(s.db)
    ensures s.dev in s.db.companies.rows && s.dev.domain == DevDomain
    ensures s.prod in s.db.companies.rows && s.prod.domain == ProdDomain
    ensures forall c :: c in db.companies.rows ==> c in s.db.companies.rows
    ensures db.logs.rows <= s.db.logs.rows && |s.db.logs.rows| <= |db.logs.rows| + 3
    ensures exists u :: u in s.db.metaUsers.rows && u.username == MetaAdminName
    ensures db.companies.rows <= s.db.companies.rows && |s.db.companies.rows| <= |db.companies.rows| + 2
    ensures forall c :: c in s.db.companies.rows && c !in db.companies.rows ==>
      (c == s.dev || c == s.prod) && c.status == Tenants.Active
    ensures db.metaUsers.rows <= s.db.metaUsers.rows && |s.db.metaUsers.rows| <= |db.metaUsers.rows| + 1
    ensures forall u :: u in s.db.metaUsers.rows && u !in db.metaUsers.rows ==>
      u.username == MetaAdminName && u.password == MetaAdminPassword
  {
    var (dev, prod, companies) := SeedCompanies(db.companies, clock);
    var logs := SeedLogs(db.logs, dev.id, prod.id, clock);
    var (admin, m) := FindOrCreateMetaUser(db.metaUsers, MetaAdminName, MetaAdminPassword, clock.metaUser);
    Seeded(Db(companies, logs, m), dev, prod)
  }

  // ---------------------------------------------------------------------
  // Properties

  /** The rows a run of findOrCreate appends when nothing matches. */
  function Appended(nextId: nat, fs: seq<AccessLog.Fields>, times: seq<int>): (r: seq<AccessLog.Entry>)
    requires |fs| == |times|
    ensures |r| == |fs|
    decreases |fs|
  {
    if |fs| == 0 then []
    else [AccessLog.ToEntry(nextId, fs[0], times[0])] + Appended(nextId + 1, fs[1..], times[1..])
  }

  /** No two samples share username, company and instant. */
  predicate SamplesApart(fs: seq<AccessLog.Fields>, times: seq<int>)
    requires |fs| == |times|
  {
    forall i, j :: 0 <= i < j < |fs| ==>
      !(fs[i].username == fs[j].username && fs[i].companyId == fs[j].companyId && times[i] == times[j])
  }

  /** No recorded row matches any of the samples. */
  predicate Unmatched(rows: seq<AccessLog.Entry>, fs: seq<AccessLog.Fields>, times: seq<int>)
    requires |fs| == |times|
  {
    forall e, i :: e in rows && 0 <= i < |fs| ==> !LogMatches(e, fs[i], times[i])
  }

  lemma AppendedUnfold(nextId: nat, next: nat, fs: seq<AccessLog.Fields>, times: seq<int>)
    requires |fs| == |times| && |fs| > 0 && next == nextId + 1
    ensures Appended(nextId, fs, times) ==
      [AccessLog.ToEntry(nextId, fs[0], times[0])] + Appended(next, fs[1..], times[1..])
  {
  }

  lemma ConsAppend<T>(x: seq<T>, y: seq<T>, rows: seq<T>, e: T, rest: seq<T>, whole: seq<T>)
    requires x == y + rest && y == rows + [e] && whole == [e] + rest
    ensures x == rows + whole
  {
  }

  lemma FirstCreated(t: AccessLog.Table, fs: seq<AccessLog.Fields>, times: seq<int>)
    requires AccessLog.Valid(t) && |fs| == |times| && |fs| > 0
    requires Unmatched(t.rows, fs, times)
    ensures FindOrCreateLog(t, fs[0], times[0]).1 ==
      AccessLog.Table(t.rows + [AccessLog.ToEntry(t.nextId, fs[0], times[0])], t.nextId + 1)
  {
    forall e | e in t.rows ensures !LogMatches(e, fs[0], times[0]) {
    }
  }

  lemma RestApart(fs: seq<AccessLog.Fields>, times: seq<int>)
    requires |fs| == |times| && |fs| > 0 && SamplesApart(fs, times)
    ensures SamplesApart(fs[1..], times[1..])
  {
    forall i, j | 0 <= i < j < |fs| - 1
      ensures !(fs[1..][i].username == fs[1..][j].username && fs[1..][i].companyId == fs[1..][j].companyId
                && times[1..][i] == times[1..][j])
    {
      assert fs[1..][i] == fs[i + 1] && fs[1..][j] == fs[j + 1];
      assert times[1..][i] == times[i + 1] && times[1..][j] == times[j + 1];
    }
  }

  /** After the first sample's row is added, no row matches a later sample. */
  lemma RestUnmatched(t: AccessLog.Table, t1: AccessLog.Table, e0: AccessLog.Entry,
                      fs: seq<AccessLog.Fields>, times: seq<int>)
    requires |fs| == |times| && |fs| > 0 && SamplesApart(fs, times)
    requires e0 == AccessLog.ToEntry(e0.id, fs[0], times[0]) && t1.rows == t.rows + [e0]
    requires Unmatched(t.rows, fs, times)
    ensures Unmatched(t1.rows, fs[1..], times[1..])
  {
    forall e, i | e in t1.rows && 0 <= i < |fs| - 1
      ensures !LogMatches(e, fs[1..][i], times[1..][i])
    {
      assert fs[1..][i] == fs[i + 1] && times[1..][i] == times[i + 1];
      if e != e0 {
        assert e in t.rows;
      }
    }
  }

  // ---------------------------------------------------------------------
  // What a run of the seeding leaves behind

  const EmptyDb := Db(Tenants.Empty, AccessLog.Empty, MetaUsers([], 1))

  /** Every recorded attempt has an instant other than the ones this run
      of the seeding reads. */
  predicate FreshInstants(rows: seq<AccessLog.Entry>, clock: Clock)
    requires ClockFits(clock)
  {
    forall e :: e in rows ==>
      e.timestamp != clock.devLogs[0] && e.timestamp != clock.devLogs[1] && e.timestamp != clock.prodLogs[0]
  }

  /** The three sample rows, with consecutive ids from `nextId`. */
  function SampleRows(nextId: nat, devId: nat, prodId: nat, clock: Clock): (r: seq<AccessLog.Entry>)
    requires ClockFits(clock)
    ensures |r| == 3
    ensures r[0].companyId == devId && r[1].companyId == devId && r[2].companyId == prodId
    ensures r[0].id == nextId && r[1].id == nextId + 1 && r[2].id == nextId + 2
  {
    [ AccessLog.ToEntry(nextId, DevLogs(devId)[0], clock.devLogs[0]),
      AccessLog.ToEntry(nextId + 1, DevLogs(devId)[1], clock.devLogs[1]),
      AccessLog.ToEntry(nextId + 2, ProdLogs(prodId)[0], clock.prodLogs[0]) ]
  }

  /** The `where` of each sample names `new Date()`, so no recorded row
      matches a sample read at a fresh instant: every run appends all three
      samples again. */
  lemma {:induction false} SeedLogsAppendsSamples(t: AccessLog.Table, devId: nat, prodId: nat, clock: Clock)
    requires AccessLog.Valid(t) && ClockFits(clock) && devId != prodId
    requires FreshInstants(t.rows, clock)
    ensures SeedLogs(t, devId, prodId, clock).rows == t.rows + SampleRows(t.nextId, devId, prodId, clock)
    ensures SeedLogs(t, devId, prodId, clock).nextId == t.nextId + 3
  {
    var dev := DevLogs(devId);
    var prod := ProdLogs(prodId);
    assert SamplesApart(dev, clock.devLogs) && SamplesApart(prod, clock.prodLogs);
    assert Unmatched(t.rows, dev, clock.devLogs);
    var l1 := FindOrCreateLogs(t, dev, clock.devLogs);
    var firstTwo := Appended(t.nextId, dev, clock.devLogs);
    assert l1.rows == t.rows + firstTwo && l1.nextId == t.nextId + 2;
    ProdSampleUnmatched(t.rows, firstTwo, devId, prodId, clock);
    var l2 := FindOrCreateLogs(l1, prod, clock.prodLogs);
    assert l2.rows == l1.rows + Appended(l1.nextId, prod, clock.prodLogs);
    SamplesInOrder(t.rows, firstTwo, Appended(l1.nextId, prod, clock.prodLogs), SampleRows(t.nextId, devId, prodId, clock));
  }

  lemma ProdSampleUnmatched(rows: seq<AccessLog.Entry>, firstTwo: seq<AccessLog.Entry>, devId: nat, prodId: nat, clock: Clock)
    requires ClockFits(clock) && devId != prodId && FreshInstants(rows, clock)
    requires forall e :: e in firstTwo ==> e.companyId == devId
    ensures Unmatched(rows + firstTwo, ProdLogs(prodId), clock.prodLogs)
  {
    forall e | e in rows + firstTwo ensures !LogMatches(e, ProdLogs(prodId)[0], clock.prodLogs[0]) {
      if e !in rows {
        assert e in firstTwo;
      }
    }
  }

  lemma SamplesInOrder<T>(rows: seq<T>, a: seq<T>, b: seq<T>, whole: seq<T>)
    requires |a| == 2 && |b| == 1 && |whole| == 3
    requires whole[0] == a[0] && whole[1] == a[1] && whole[2] == b[0]
    ensures (rows + a) + b == rows + whole
  {
    assert a + b == whole;
  }

  /** Two rows of a valid table with different domains have different ids. */
  lemma DistinctTenants(t: Tenants.Table, x: Tenants.Company, y: Tenants.Company)
    requires Tenants.Valid(t) && x in t.rows && y in t.rows && x.domain != y.domain
    ensures x.id != y.id
  {
    var i :| 0 <= i < |t.rows| && t.rows[i] == x;
    var j :| 0 <= j < |t.rows| && t.rows[j] == y;
    assert i != j;
  }

  /** Seeding an empty database yields the two default tenants with ids 1
      and 2, the three sample attempts and the meta-admin account. */
  lemma SeedingEmptyDatabase(clock: Clock)
    requires ClockFits(clock)
    ensures var s := Seed(EmptyDb, clock);
      && s.dev == Tenants.NewRow(Tenants.Empty, DevCompany, clock.devCompany)
      && s.prod == Tenants.NewRow(Tenants.Table([s.dev], 2), ProdCompany, clock.prodCompany)
      && s.db.companies.rows == [s.dev, s.prod]
      && s.dev.id == 1 && s.prod.id == 2
      && s.db.logs.rows == SampleRows(1, 1, 2, clock)
      && s.db.metaUsers.rows == [MetaUser(1, MetaAdminName, MetaAdminPassword, clock.metaUser, clock.metaUser)]
  {
    var (dev, prod, companies) := SeedCompanies(Tenants.Empty, clock);
    FreshTenants(clock);
    SeedLogsAppendsSamples(AccessLog.Empty, dev.id, prod.id, clock);
  }

  lemma FreshTenants(clock: Clock)
    ensures var (dev, prod, t) := SeedCompanies(Tenants.Empty, clock);
      && dev == Tenants.NewRow(Tenants.Empty, DevCompany, clock.devCompany)
      && prod == Tenants.NewRow(Tenants.Table([dev], 2), ProdCompany, clock.prodCompany)
      && t.rows == [dev, prod]
  {
    var (dev, c1) := FindOrCreateCompany(Tenants.Empty, DevCompany, clock.devCompany);
    SecondTenant(c1, dev, clock.prodCompany);
  }

  lemma SecondTenant(t: Tenants.Table, dev: Tenants.Company, now: int)
    requires Tenants.Valid(t) && t == Tenants.Table([dev], 2) && dev.domain == DevDomain
    ensures var (prod, t') := FindOrCreateCompany(t, ProdCompany, now);
      prod == Tenants.NewRow(t, ProdCompany, now) && t'.rows == [dev, prod]
  {
    assert !Tenants.DomainTaken(t, ProdDomain) by {
      assert DevDomain[0] != ProdDomain[0];
    }
  }

  /** A run over a database that already holds both tenants and the
      meta-admin leaves those tables as they are, and returns the rows it
      found. */
  lemma SeedKeepsExistingRows(db: Db, clock: Clock, dev: Tenants.Company, prod: Tenants.Company)
    requires DbValid(db) && ClockFits(clock)
    requires dev in db.companies.rows && dev.domain == DevDomain
    requires prod in db.companies.rows && prod.domain == ProdDomain
    requires exists u :: u in db.metaUsers.rows && u.username == MetaAdminName
    ensures var s := Seed(db, clock);
      && s.db.companies == db.companies && s.db.metaUsers == db.metaUsers
      && s.dev == dev && s.prod == prod
  {
    Tenants.DomainOwnedOnlyBy(db.companies, dev);
    Tenants.DomainOwnedOnlyBy(db.companies, prod);
  }

  /** Seeding twice: the tenants and the meta-admin are found again, but
      the three samples, read at new instants, are appended a second time. */
  lemma ReseedingDuplicatesOnlySamples(db: Db, first: Clock, second: Clock)
    requires DbValid(db) && ClockFits(first) && ClockFits(second)
    requires var s := Seed(db, first); FreshInstants(s.db.logs.rows, second)
    ensures var s := Seed(db, first); var s' := Seed(s.db, second);
      && s'.db.companies == s.db.companies && s'.db.metaUsers == s.db.metaUsers
      && s'.dev == s.dev && s'.prod == s.prod
      && s'.db.logs.rows == s.db.logs.rows + SampleRows(s.db.logs.nextId, s.dev.id, s.prod.id, second)
  {
    var s := Seed(db, first);
    SeedKeepsExistingRows(s.db, second, s.dev, s.prod);
    DistinctTenants(s.db.companies, s.dev, s.prod);
    SeedLogsAppendsSamples(s.db.logs, s.dev.id, s.prod.id, second);
  }

  /** Usernames are unique, so there is exactly one meta-admin after a run. */
  lemma OneMetaAdmin(db: Db, clock: Clock)
    requires DbValid(db) && ClockFits(clock)
    ensures var m := Seed(db, clock).db.metaUsers.rows;
      forall u, v :: u in m && v in m && u.username == MetaAdminName && v.username == MetaAdminName ==> u == v
  {
    UsernameIdentifies(Seed(db, clock).db.metaUsers);
  }

  lemma UsernameIdentifies(m: MetaUsers)
    requires MetaUsersValid(m)
    ensures forall u, v :: u in m.rows && v in m.rows && u.username == v.username ==> u == v
  {
    forall u, v | u in m.rows && v in m.rows && u.username == v.username
      ensures u == v
    {
      var i :| 0 <= i < |m.rows| && m.rows[i] == u;
      var j :| 0 <= j < |m.rows| && m.rows[j] == v;
      assert !(i < j) && !(j < i);
    }
  }
}
