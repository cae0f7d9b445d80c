/** The `logs` table: one row per login attempt, appended and never changed.
    `companyId` is the foreign key added by the Company–Log association. */
module AccessLog {
  import opened Js
  import Sorting

  datatype Entry = Entry(
    id: nat,
    username: string,
    success: bool,
    ipAddress: Option<string>,
    userAgent: Option<string>,
    timestamp: int,
    companyId: nat)

  /** The attributes handed to `Log.create`; `timestamp` is left to its
      default, the current instant. */
  datatype Fields = Fields(
    username: string,
    success: bool,
    ipAddress: Option<string>,
    userAgent: Option<string>,
    companyId: nat)

  datatype Table = Table(rows: seq<Entry>, nextId: nat)

  const Empty := Table([], 1)

  /** Primary keys are unique and below the id sequence. */
  predicate Valid(t: Table) {
    && (forall i :: 0 <= i < |t.rows| ==> t.rows[i].id < t.nextId)
    && (forall i, j :: 0 <= i < j < |t.rows| ==> t.rows[i].id != t.rows[j].id)
  }

  function ToEntry(id: nat, f: Fields, at: int): Entry {
    Entry(id, f.username, f.success, f.ipAddress, f.userAgent, at, f.companyId)
  }

  /** `Log.create(fields)` at instant `now`: one new row with a fresh id at
      the end; earlier rows are untouched. */
  function Append(t: Table, f: Fields, now: int): (t': Table)
    requires Valid(t)
    ensures Valid(t')
    ensures t'.rows == t.rows + [ToEntry(t.nextId, f, now)] && t'.nextId == t.nextId + 1
    ensures forall e :: e in t.rows ==> e.id != t.nextId
  {
    var t' := Table(t.rows + [ToEntry(t.nextId, f, now)], t.nextId + 1);
    assert forall i :: 0 <= i < |t.rows| ==> t'.rows[i] == t.rows[i];
    t'
  }

  /** `where: { companyId }`. */
  function ForCompany(rows: seq<Entry>, companyId: nat): (r: seq<Entry>)
    ensures forall e :: e in r <==> e in rows && e.companyId == companyId
    ensures forall e :: multiset(r)[e] == if e.companyId == companyId then multiset(rows)[e] else 0
    decreases |rows|
  {
    if |rows| == 0 then []
    else
      assert rows == [rows[0]] + rows[1..];
      (if rows[0].companyId == companyId then [rows[0]] else []) + ForCompany(rows[1..], companyId)
  }

  function Timestamp(e: Entry): int {
    e.timestamp
  }

  /** `findAll({ where: { companyId }, order: [['timestamp', 'DESC']], limit })`. */
  function Newest(rows: seq<Entry>, companyId: nat, limit: nat): (r: seq<Entry>)
    ensures |r| == Sorting.Min(limit, |ForCompany(rows, companyId)|)
    ensures multiset(r) <= multiset(ForCompany(rows, companyId))
    ensures forall e :: e in r ==> e in rows && e.companyId == companyId
    ensures forall i, j :: 0 <= i < j < |r| ==> r[i].timestamp >= r[j].timestamp
    ensures forall e, f :: e in r && f in multiset(ForCompany(rows, companyId)) - multiset(r) ==>
      f.timestamp <= e.timestamp
    ensures |ForCompany(rows, companyId)| <= limit ==>
      multiset(r) == multiset(ForCompany(rows, companyId))
  {
    var own := ForCompany(rows, companyId);
    var r := Sorting.TopBy(own, Timestamp, limit);
    NewestFacts(own, r, limit);
    r
  }

  lemma NewestFacts(own: seq<Entry>, r: seq<Entry>, limit: nat)
    requires r == Sorting.TopBy(own, Timestamp, limit)
    ensures forall e :: e in r ==> e in own
    ensures forall i, j :: 0 <= i < j < |r| ==> r[i].timestamp >= r[j].timestamp
    ensures forall e, f :: e in r && f in multiset(own) - multiset(r) ==> f.timestamp <= e.timestamp
    ensures |own| <= limit ==> multiset(r) == multiset(own)
  {
    Sorting.TopByKeepsNewest(own, Timestamp, limit);
    assert Sorting.SortedBy(r, Timestamp, true);
    forall i, j | 0 <= i < j < |r| ensures r[i].timestamp >= r[j].timestamp {
      assert Sorting.Precedes(Timestamp(r[i]), Timestamp(r[j]), true);
    }
    forall e | e in r ensures e in own {
      assert e in multiset(r);
    }
  }

  /** A row appended later than every other is the first of its company's
      newest rows. */
  lemma NewestStartsWithLatest(rows: seq<Entry>, latest: Entry, limit: nat)
    requires limit > 0
    requires forall e :: e in rows ==> e.timestamp < latest.timestamp
    ensures var r := Newest(rows + [latest], latest.companyId, limit);
      |r| > 0 && r[0] == latest
  {
    var own := ForCompany(rows + [latest], latest.companyId);
    assert latest in rows + [latest];
    assert latest in own;
    forall y | y in own && y != latest
      ensures Timestamp(y) < Timestamp(latest)
    {
      assert y in rows + [latest];
      assert y in rows;
    }
    Sorting.TopByStartsWithNewest(own, Timestamp, limit, latest);
  }
}
