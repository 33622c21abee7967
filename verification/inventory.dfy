/** The inventory the allocation reads: donations, the issues drawn from them,
    and the derived view of outstanding (not yet fully issued) donations. */
module Inventory {
  import opened BloodTypes

  type DonationId = nat
  type RequestId = nat

  /** A donation: the donor's blood type and the number of units given. */
  datatype Donation = Donation(id: DonationId, bloodType: BloodType, units: int)

  /** Units drawn from one donation for one request, recorded under the blood
      type the request was served for. */
  datatype Issue = Issue(request: RequestId, donation: DonationId, requestBloodType: BloodType, units: int)

  /** A request for blood: one patient's, or a mass-casualty request split by a distribution. */
  datatype Request = SingleRequest(patient: string, units: int) | MciRequest(distribution: nat, units: int)

  /** The persistent state: a request's id is its position in `requests`, and
      the order of `donations` stands for the order the outstanding view lists them. */
  datatype Store = Store(donations: seq<Donation>, requests: seq<Request>, issues: seq<Issue>)

  /** A row of the outstanding-donations view: a donation with the units still left in it. */
  datatype Row = Row(donation: DonationId, bloodType: BloodType, units: int)

  /** How many view rows one fetch takes. */
  const BatchSize: nat := 10

  /** Donation ids are primary keys. */
  predicate UniqueIds(donations: seq<Donation>)
  {
    forall i, j :: 0 <= i < j < |donations| ==> donations[i].id != donations[j].id
  }

  /** The ids of a list of donations. */
  function Ids(donations: seq<Donation>): set<DonationId>
  {
    set d | d in donations :: d.id
  }

  /** The units issued so far against donation `id`. */
  function IssuedUnits(issues: seq<Issue>, id: DonationId): int
  {
    if issues == [] then 0
    else
      var last := issues[|issues| - 1];
      IssuedUnits(issues[..|issues| - 1], id) + (if last.donation == id then last.units else 0)
  }

  /** Recording one more issue changes the issued total of its own donation only. */
  lemma IssuedAppend(issues: seq<Issue>, issue: Issue, id: DonationId)
    ensures IssuedUnits(issues + [issue], id) == IssuedUnits(issues, id) + (if issue.donation == id then issue.units else 0)
  {
    assert (issues + [issue])[..|issues|] == issues;
  }

  /** The units of a donation not yet issued. */
  function Remaining(issues: seq<Issue>, d: Donation): int
  {
    d.units - IssuedUnits(issues, d.id)
  }

  /** The view row for a donation. */
  function RowOf(issues: seq<Issue>, d: Donation): Row
  {
    Row(d.id, d.bloodType, Remaining(issues, d))
  }

  /** A donation the view lists when restricted to donor types `types`. */
  predicate Outstands(issues: seq<Issue>, types: set<BloodType>, d: Donation)
  {
    d.bloodType in types && Remaining(issues, d) > 0
  }

  /** Every donation's issued units stay within what it held. */
  predicate Conserved(s: Store)
  {
    forall d :: d in s.donations ==> IssuedUnits(s.issues, d.id) <= d.units
  }

  /** The outstanding view restricted to donor types `types`: a row for every
      donation of those types that still has units left, carrying those
      remaining units, in donation order; every row has units left and a type
      in `types`, and no donation is listed twice. */
  function Outstanding(donations: seq<Donation>, issues: seq<Issue>, types: set<BloodType>): (rows: seq<Row>)
    ensures |rows| <= |donations|
    ensures forall d :: d in donations && Outstands(issues, types, d) ==> RowOf(issues, d) in rows
    ensures forall r :: r in rows ==> r.units > 0 && r.bloodType in types && r.donation in Ids(donations)
    ensures UniqueIds(donations) ==> forall i, j :: 0 <= i < j < |rows| ==> rows[i].donation != rows[j].donation
  {
    if donations == [] then []
    else
      var d := donations[0];
      var rest := Outstanding(donations[1..], issues, types);
      assert forall e :: e in donations <==> e == d || e in donations[1..];
      assert UniqueIds(donations) ==> UniqueIds(donations[1..]) && forall e :: e in donations[1..] ==> e.id != d.id by {
        if UniqueIds(donations) { UniqueTail(donations); }
      }
      if Outstands(issues, types, d) then
        var rows := [RowOf(issues, d)] + rest;
        if UniqueIds(donations) then DistinctCons(RowOf(issues, d), rest); rows else rows
      else rest
  }

  /** The tail of a list of donations with distinct ids has distinct ids, none
      of them the head's. */
  lemma UniqueTail(donations: seq<Donation>)
    requires UniqueIds(donations) && donations != []
    ensures UniqueIds(donations[1..])
    ensures forall e :: e in donations[1..] ==> e.id != donations[0].id
  {
    forall e | e in donations[1..] ensures e.id != donations[0].id {
      var k :| 0 <= k < |donations[1..]| && donations[1..][k] == e;
      assert donations[k + 1] == e;
    }
  }

  /** Putting a row of a new donation in front of rows of distinct donations
      keeps the rows' donations distinct. */
  lemma DistinctCons(row: Row, rest: seq<Row>)
    requires forall i, j :: 0 <= i < j < |rest| ==> rest[i].donation != rest[j].donation
    requires forall r :: r in rest ==> r.donation != row.donation
    ensures var rows := [row] + rest;
      forall i, j :: 0 <= i < j < |rows| ==> rows[i].donation != rows[j].donation
  {
    var rows := [row] + rest;
    forall i, j | 0 <= i < j < |rows| ensures rows[i].donation != rows[j].donation {
      if i == 0 {
        assert rows[j] in rest;
      } else {
        assert rows[i] == rest[i - 1] && rows[j] == rest[j - 1];
      }
    }
  }

  /** Every row of the view is the current row of a listed donation. */
  lemma {:induction false} OutstandingRowsCurrent(donations: seq<Donation>, issues: seq<Issue>, types: set<BloodType>, r: Row)
    requires r in Outstanding(donations, issues, types)
    ensures exists d :: d in donations && Outstands(issues, types, d) && RowOf(issues, d) == r
    decreases |donations|
  {
    var d := donations[0];
    if !(Outstands(issues, types, d) && r == RowOf(issues, d)) {
      OutstandingRowsCurrent(donations[1..], issues, types, r);
      var e :| e in donations[1..] && Outstands(issues, types, e) && RowOf(issues, e) == r;
      assert e in donations;
    }
  }

  /** The sum of the units of a list of rows. */
  function RowUnits(rows: seq<Row>): int
  {
    if rows == [] then 0 else rows[0].units + RowUnits(rows[1..])
  }

  /** The outstanding view as the allocation for recipient type `t` sees it:
      only donations of compatible types. */
  function View(s: Store, table: Table, t: BloodType): seq<Row>
  {
    Outstanding(s.donations, s.issues, CompatibleBloodTypes(table, t))
  }

  /** The units of compatible blood still outstanding for recipients of type `t`. */
  function Stock(s: Store, table: Table, t: BloodType): int
  {
    RowUnits(View(s, table, t))
  }

  /** The first `n` rows of a list, or all of them when there are fewer (Python's `rows[0:n]`). */
  function Take(rows: seq<Row>, n: nat): (prefix: seq<Row>)
    ensures |prefix| <= n && |prefix| <= |rows|
    ensures prefix == rows[..|prefix|]
    ensures |prefix| == n || prefix == rows
  {
    if |rows| <= n then rows else rows[..n]
  }

  /** One fetch of the allocation loop: the first `BatchSize` rows of the view
      for recipient type `t`. It comes back empty only when nothing compatible
      is outstanding. */
  function Fetch(s: Store, table: Table, t: BloodType): (batch: seq<Row>)
    ensures |batch| <= BatchSize && |batch| <= |View(s, table, t)|
    ensures batch == View(s, table, t)[..|batch|]
    ensures batch == [] <==> View(s, table, t) == []
  {
    Take(View(s, table, t), BatchSize)
  }

  /** Issuing `n` units against a listed donation lowers the outstanding total
      of every type set containing its type by exactly `n`, and leaves the
      other totals alone. */
  lemma {:induction false} OutstandingAfterIssue(donations: seq<Donation>, issues: seq<Issue>, types: set<BloodType>, d: Donation, issue: Issue)
    requires UniqueIds(donations) && d in donations
    requires issue.donation == d.id && 0 < issue.units <= Remaining(issues, d)
    ensures RowUnits(Outstanding(donations, issues + [issue], types)) ==
      RowUnits(Outstanding(donations, issues, types)) - (if d.bloodType in types then issue.units else 0)
    decreases |donations|
  {
    var e := donations[0];
    IssuedAppend(issues, issue, e.id);
    if e == d {
      if donations[1..] != [] {
        OutstandingUntouched(donations[1..], issues, types, issue);
      }
    } else {
      assert e.id != d.id;
      assert d in donations[1..];
      OutstandingAfterIssue(donations[1..], issues, types, d, issue);
    }
  }

  /** An issue against a donation outside the list leaves the list's view unchanged. */
  lemma {:induction false} OutstandingUntouched(donations: seq<Donation>, issues: seq<Issue>, types: set<BloodType>, issue: Issue)
    requires forall e :: e in donations ==> e.id != issue.donation
    ensures Outstanding(donations, issues + [issue], types) == Outstanding(donations, issues, types)
    decreases |donations|
  {
    if donations != [] {
      var d := donations[0];
      IssuedAppend(issues, issue, d.id);
      assert RowOf(issues + [issue], d) == RowOf(issues, d);
      OutstandingUntouched(donations[1..], issues, types, issue);
    }
  }
}
