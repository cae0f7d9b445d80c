/** The `companies` table: the Company schema and the handful of store
    operations the handlers issue through the ORM (`findOne` by domain,
    `findByPk`, `create`, `update`, `destroy`, `findAll` ordered by creation).
    The database is PostgreSQL, so the status column is a real enum and a
    failed insert still consumes a value of the id sequence. */
module Tenants {
  import opened Js
  import Sorting

  /** The `status` enum; the type admits no other value. */
  datatype Status = Active | Inactive | Suspended

  /** The enum's textual labels, as the JSON API carries them. */
  function StatusLabel(s: Status): string {
    match s
    case Active => "active"
    case Inactive => "inactive"
    case Suspended => "suspended"
  }

  /** Reads an enum label; any other text is refused by the database. */
  function ParseStatus(text: string): (r: Option<Status>)
    ensures r.Some? <==> text in {"active", "inactive", "suspended"}
    ensures r.Some? ==> StatusLabel(r.value) == text
  {
    if text == "active" then Some(Active)
    else if text == "inactive" then Some(Inactive)
    else if text == "suspended" then Some(Suspended)
    else None
  }

  lemma ParseStatusInvertsLabel(s: Status)
    ensures ParseStatus(StatusLabel(s)) == Some(s)
  {
  }

  /** One row of `companies`. `name` and `domain` are NOT NULL; `description`
      and `logo` are nullable. Instants are milliseconds since the epoch. */
  datatype Company = Company(
    id: nat,
    name: string,
    domain: string,
    description: Option<string>,
    logo: Option<string>,
    status: Status,
    createdAt: int,
    updatedAt: int)

  /** The attributes handed to `Company.create`; `status: None` leaves the
      column to its default. */
  datatype Draft = Draft(
    name: string,
    domain: string,
    description: Option<string>,
    logo: Option<string>,
    status: Option<Status>)

  /** The table and its id sequence (`SERIAL`, starting at 1). */
  datatype Table = Table(rows: seq<Company>, nextId: nat)

  const Empty := Table([], 1)

  /** The schema's constraints: the primary key is unique and below the
      sequence, and `domain` is UNIQUE. */
  predicate Valid(t: Table) {
    && (forall i :: 0 <= i < |t.rows| ==> t.rows[i].id < t.nextId)
    && (forall i, j :: 0 <= i < j < |t.rows| ==> t.rows[i].id != t.rows[j].id)
    && (forall i, j :: 0 <= i < j < |t.rows| ==> t.rows[i].domain != t.rows[j].domain)
  }

  lemma EmptyIsValid()
    ensures Valid(Empty)
  {
  }

  predicate DomainTaken(t: Table, domain: string) {
    exists c :: c in t.rows && c.domain == domain
  }

  predicate IdExists(t: Table, id: nat) {
    exists c :: c in t.rows && c.id == id
  }

  /** `findOne({ where: { domain } })`. */
  function FindByDomain(t: Table, domain: string): (r: Option<Company>)
    ensures r.Some? <==> DomainTaken(t, domain)
    ensures r.Some? ==> r.value in t.rows && r.value.domain == domain
    decreases |t.rows|
  {
    if |t.rows| == 0 then None
    else if t.rows[0].domain == domain then Some(t.rows[0])
    else
      var r := FindByDomain(Table(t.rows[1..], t.nextId), domain);
      assert t.rows == [t.rows[0]] + t.rows[1..];
      r
  }

  /** `findByPk(id)`. */
  function FindById(t: Table, id: nat): (r: Option<Company>)
    ensures r.Some? <==> IdExists(t, id)
    ensures r.Some? ==> r.value in t.rows && r.value.id == id
    decreases |t.rows|
  {
    if |t.rows| == 0 then None
    else if t.rows[0].id == id then Some(t.rows[0])
    else
      var r := FindById(Table(t.rows[1..], t.nextId), id);
      assert t.rows == [t.rows[0]] + t.rows[1..];
      r
  }

  /** Because `domain` is unique, a domain lookup finds exactly the row
      carrying that domain. */
  lemma FindByDomainUnique(t: Table, c: Company)
    requires Valid(t)
    requires c in t.rows
    ensures FindByDomain(t, c.domain) == Some(c)
  {
    var r := FindByDomain(t, c.domain).value;
    var i :| 0 <= i < |t.rows| && t.rows[i] == c;
    var j :| 0 <= j < |t.rows| && t.rows[j] == r;
  }

  /** No other row shares a row's domain. */
  lemma DomainOwnedOnlyBy(t: Table, c: Company)
    requires Valid(t) && c in t.rows
    ensures forall x :: x in t.rows && x.domain == c.domain ==> x == c
  {
    forall x | x in t.rows && x.domain == c.domain ensures x == c {
      FindByDomainUnique(t, x);
      FindByDomainUnique(t, c);
    }
  }

  /** Because `id` is the primary key, an id lookup finds exactly the row
      carrying that id. */
  lemma FindByIdUnique(t: Table, c: Company)
    requires Valid(t)
    requires c in t.rows
    ensures FindById(t, c.id) == Some(c)
  {
    var r := FindById(t, c.id).value;
    var i :| 0 <= i < |t.rows| && t.rows[i] == c;
    var j :| 0 <= j < |t.rows| && t.rows[j] == r;
  }

  /** The row `create` writes: the next sequence value, the status default
      `active`, both timestamps set to the current instant. */
  function NewRow(t: Table, d: Draft, now: int): (c: Company)
    ensures c.id == t.nextId
    ensures d.status.None? ==> c.status == Active
    ensures d.status.Some? ==> c.status == d.status.value
    ensures c.name == d.name && c.domain == d.domain
    ensures c.description == d.description && c.logo == d.logo
    ensures c.createdAt == now && c.updatedAt == now
  {
    Company(t.nextId, d.name, d.domain, d.description, d.logo,
            d.status.GetOr(Active), now, now)
  }

  /** The outcome of an insert or update: the new table, and the written row
      unless the UNIQUE constraint on `domain` refused the statement. */
  datatype Write = Write(table: Table, row: Option<Company>)

  /** `Company.create(draft)`. A duplicate domain is refused, but the id
      sequence has already advanced. */
  function Insert(t: Table, d: Draft, now: int): (w: Write)
    requires Valid(t)
    ensures Valid(w.table)
    ensures w.table.nextId == t.nextId + 1
    ensures w.row.None? <==> DomainTaken(t, d.domain)
    ensures w.row.None? ==> w.table.rows == t.rows
    ensures w.row.Some? ==>
      w.row.value == NewRow(t, d, now) && w.table.rows == t.rows + [w.row.value]
    ensures w.row.Some? ==> !IdExists(t, w.row.value.id)
  {
    if DomainTaken(t, d.domain) then
      Write(t.(nextId := t.nextId + 1), None)
    else
      var c := NewRow(t, d, now);
      var t' := Table(t.rows + [c], t.nextId + 1);
      assert forall i :: 0 <= i < |t.rows| ==> t'.rows[i] == t.rows[i];
      assert forall i :: 0 <= i < |t.rows| ==> t.rows[i] in t.rows;
      Write(t', Some(c))
  }

  /** The row at position `k` replaced by `c`. */
  function ReplaceAt(rows: seq<Company>, k: nat, c: Company): (r: seq<Company>)
    requires k < |rows|
    ensures |r| == |rows| && r[k] == c
    ensures forall i :: 0 <= i < |rows| && i != k ==> r[i] == rows[i]
  {
    rows[k := c]
  }

  function IndexOfId(rows: seq<Company>, id: nat): (k: nat)
    requires exists c :: c in rows && c.id == id
    ensures k < |rows| && rows[k].id == id
    ensures forall i :: 0 <= i < k ==> rows[i].id != id
  {
    if rows[0].id == id then 0
    else
      assert exists c :: c in rows[1..] && c.id == id by {
        var c :| c in rows && c.id == id;
        var i :| 0 <= i < |rows| && rows[i] == c;
        assert rows[1..][i - 1] == c;
      }
      1 + IndexOfId(rows[1..], id)
  }

  /** The primary key singles out one position. */
  lemma OtherIdsDiffer(t: Table, k: nat)
    requires Valid(t) && k < |t.rows|
    ensures forall i :: 0 <= i < |t.rows| && i != k ==> t.rows[i].id != t.rows[k].id
  {
    forall i | 0 <= i < |t.rows| && i != k
      ensures t.rows[i].id != t.rows[k].id
    {
      if i < k {
        assert t.rows[i].id != t.rows[k].id;
      } else {
        assert t.rows[k].id != t.rows[i].id;
      }
    }
  }

  /** Rewriting one row with its own id and a domain no other row has keeps
      the constraints, and leaves every other row where it was. */
  lemma ReplaceFacts(t: Table, k: nat, c: Company)
    requires Valid(t) && k < |t.rows|
    requires c.id == t.rows[k].id
    requires forall i :: 0 <= i < |t.rows| && i != k ==> t.rows[i].domain != c.domain
    ensures Valid(Table(t.rows[k := c], t.nextId))
    ensures forall x :: x in t.rows[k := c] && x.id != c.id ==> x in t.rows
    ensures forall x :: x in t.rows && x.id != c.id ==> x in t.rows[k := c]
  {
    var rows := t.rows[k := c];
    OtherIdsDiffer(t, k);
    forall i, j | 0 <= i < j < |rows|
      ensures rows[i].id != rows[j].id && rows[i].domain != rows[j].domain
    {
      if i != k && j != k {
        assert rows[i] == t.rows[i] && rows[j] == t.rows[j];
      }
    }
    forall x | x in rows && x.id != c.id ensures x in t.rows {
      var i :| 0 <= i < |rows| && rows[i] == x;
      assert t.rows[i] == x;
    }
    forall x | x in t.rows && x.id != c.id ensures x in rows {
      var i :| 0 <= i < |t.rows| && t.rows[i] == x;
      assert rows[i] == x;
    }
  }

  /** `instance.update(values)` for the row with `id` (which must exist, as
      the handlers look it up first). Nothing changed means no statement is
      issued and `updatedAt` stays; otherwise the row is rewritten with
      `updatedAt = now`, unless its new domain belongs to another row. */
  function UpdateRow(t: Table, id: nat, values: Company, now: int): (w: Write)
    requires Valid(t)
    requires IdExists(t, id)
    requires values.id == id
    ensures Valid(w.table)
    ensures w.table.nextId == t.nextId && |w.table.rows| == |t.rows|
    ensures w.row.None? <==>
      exists c :: c in t.rows && c.id != id && c.domain == values.domain
    ensures w.row.None? || values == FindById(t, id).value ==> w.table == t
    ensures w.row.Some? ==>
      var prior := FindById(t, id).value;
      && w.row.value in w.table.rows
      && w.row.value.id == id
      && (if values == prior then w.row.value == prior
          else w.row.value == values.(updatedAt := now))
      && (forall c :: c in t.rows && c.id != id ==> c in w.table.rows)
      && (forall c :: c in w.table.rows && c.id != id ==> c in t.rows)
  {
    var k := IndexOfId(t.rows, id);
    FindByIdUnique(t, t.rows[k]);
    if exists c :: c in t.rows && c.id != id && c.domain == values.domain then
      Write(t, None)
    else if values == t.rows[k] then
      Write(t, Some(t.rows[k]))
    else
      var c := values.(updatedAt := now);
      OtherIdsDiffer(t, k);
      assert forall i :: 0 <= i < |t.rows| && i != k ==> t.rows[i].domain != c.domain by {
        forall i | 0 <= i < |t.rows| && i != k ensures t.rows[i].domain != c.domain {
          assert t.rows[i] in t.rows;
        }
      }
      ReplaceFacts(t, k, c);
      assert t.rows[k := c][k] == c;
      Write(Table(t.rows[k := c], t.nextId), Some(c))
  }

  /** Position `i` of a list with position `k` dropped. */
  lemma DropIndex(rows: seq<Company>, k: nat, dropped: seq<Company>)
    requires k < |rows| && dropped == rows[..k] + rows[k + 1..]
    ensures |dropped| == |rows| - 1
    ensures forall i :: 0 <= i < |dropped| ==> dropped[i] == rows[if i < k then i else i + 1]
  {
  }

  /** Dropping position `k` keeps the constraints and removes exactly the
      row with that position's id. */
  lemma RemoveFacts(t: Table, k: nat)
    requires Valid(t) && k < |t.rows|
    ensures Valid(Table(t.rows[..k] + t.rows[k + 1..], t.nextId))
    ensures forall x :: x in t.rows[..k] + t.rows[k + 1..] <==> x in t.rows && x.id != t.rows[k].id
  {
    RemoveKeepsValid(t, k);
    RemoveMembers(t, k);
  }

  lemma RemoveKeepsValid(t: Table, k: nat)
    requires Valid(t) && k < |t.rows|
    ensures Valid(Table(t.rows[..k] + t.rows[k + 1..], t.nextId))
  {
    var rows := t.rows[..k] + t.rows[k + 1..];
    DropIndex(t.rows, k, rows);
    forall i, j | 0 <= i < j < |rows|
      ensures rows[i].id != rows[j].id && rows[i].domain != rows[j].domain
    {
      var i' := if i < k then i else i + 1;
      var j' := if j < k then j else j + 1;
      assert rows[i] == t.rows[i'] && rows[j] == t.rows[j'] && i' < j';
    }
  }

  lemma RemoveMembers(t: Table, k: nat)
    requires Valid(t) && k < |t.rows|
    ensures forall x :: x in t.rows[..k] + t.rows[k + 1..] <==> x in t.rows && x.id != t.rows[k].id
  {
    var rows := t.rows[..k] + t.rows[k + 1..];
    DropIndex(t.rows, k, rows);
    OtherIdsDiffer(t, k);
    forall x | x in t.rows && x.id != t.rows[k].id ensures x in rows {
      var i :| 0 <= i < |t.rows| && t.rows[i] == x;
      if i < k {
        assert rows[i] == x;
      } else {
        assert rows[i - 1] == x;
      }
    }
    forall x | x in rows ensures x in t.rows && x.id != t.rows[k].id {
      var i :| 0 <= i < |rows| && rows[i] == x;
      assert x == t.rows[if i < k then i else i + 1];
    }
  }

  /** `instance.destroy()`: a hard delete of the row with `id`. */
  function DeleteRow(t: Table, id: nat): (t': Table)
    requires Valid(t)
    ensures Valid(t')
    ensures t'.nextId == t.nextId
    ensures !IdExists(t', id)
    ensures forall c :: c in t'.rows <==> c in t.rows && c.id != id
    ensures IdExists(t, id) ==> |t'.rows| == |t.rows| - 1
    ensures !IdExists(t, id) ==> t' == t
  {
    if !IdExists(t, id) then t
    else
      var k := IndexOfId(t.rows, id);
      RemoveFacts(t, k);
      Table(t.rows[..k] + t.rows[k + 1..], t.nextId)
  }

  /** `findAll({ order: [['createdAt', dir]] })`. */
  function ByCreation(rows: seq<Company>, newestFirst: bool): (r: seq<Company>)
    ensures multiset(r) == multiset(rows)
    ensures forall i, j :: 0 <= i < j < |r| ==>
      if newestFirst then r[i].createdAt >= r[j].createdAt
      else r[i].createdAt <= r[j].createdAt
  {
    Sorting.SortBy(rows, (c: Company) => c.createdAt, newestFirst)
  }

  /** `where: { status: 'active' }`. */
  function ActiveRows(rows: seq<Company>): (r: seq<Company>)
    ensures forall c :: c in r <==> c in rows && c.status == Active
    ensures forall c :: multiset(r)[c] == if c.status == Active then multiset(rows)[c] else 0
    decreases |rows|
  {
    if |rows| == 0 then []
    else
      assert rows == [rows[0]] + rows[1..];
      (if rows[0].status == Active then [rows[0]] else []) + ActiveRows(rows[1..])
  }
}
