/** The allocation engine: filling a single-patient request or a
    mass-casualty (MCI) request from the outstanding inventory, all or nothing. */
module FillRequest {
  import opened Results
  import opened BloodTypes
  import opened Inventory
  import Distributions

  /** The state a demand line leaves behind: either it was filled, or a fetch
      came back empty with `missing` units still wanted. A short line's store
      holds the issues made before the shortfall; the enclosing transaction
      discards them. */
  datatype LineOutcome = Filled(store: Store) | Short(store: Store, bloodType: BloodType, missing: int)

  /** What the application raises when a line cannot be filled, or when the
      distribution of an MCI request cannot be resolved. */
  datatype FillError =
    | CanNotFulfill(bloodType: BloodType, units: int)
    | DistributionFailed(error: Distributions.DistError)

  /** The committed state of a request transaction and its outcome: the new
      request's id, or the error that rolled the transaction back. */
  datatype Transaction = Transaction(store: Store, outcome: Result<RequestId, FillError>)

  function Min(a: int, b: int): int
  {
    if a <= b then a else b
  }

  /** The units of a list of issues, summed. */
  function Total(issues: seq<Issue>): int
  {
    if issues == [] then 0 else issues[0].units + Total(issues[1..])
  }

  lemma {:induction false} TotalConcat(a: seq<Issue>, b: seq<Issue>)
    ensures Total(a + b) == Total(a) + Total(b)
    decreases |a|
  {
    if a != [] {
      assert (a + b)[0] == a[0] && (a + b)[1..] == a[1..] + b;
      TotalConcat(a[1..], b);
    } else {
      assert a + b == b;
    }
  }

  /** `s'` is `s` with issues appended and nothing else changed. */
  predicate Extends(s: Store, s': Store)
  {
    && s'.donations == s.donations
    && s'.requests == s.requests
    && |s.issues| <= |s'.issues|
    && s'.issues[..|s.issues|] == s.issues
  }

  /** The issues appended to `s` to reach `s'`. */
  function Added(s: Store, s': Store): seq<Issue>
    requires |s.issues| <= |s'.issues|
  {
    s'.issues[|s.issues|..]
  }

  /** An issue made for request `req` on a line for recipient type `t`:
      recorded under `t`, for a positive number of units, and drawn from a
      donation whose type may be given to `t`. */
  predicate Serves(donations: seq<Donation>, table: Table, req: RequestId, t: BloodType, i: Issue)
  {
    && i.request == req
    && i.requestBloodType == t
    && i.units > 0
    && exists d :: d in donations && d.id == i.donation && d.bloodType in CompatibleBloodTypes(table, t)
  }

  /** Between `s` and `s'` every donation either received no new issue or
      ended with no more issued against it than it held. */
  predicate Conserves(s: Store, s': Store)
  {
    forall d :: d in s.donations ==>
      IssuedUnits(s'.issues, d.id) == IssuedUnits(s.issues, d.id) || IssuedUnits(s'.issues, d.id) <= d.units
  }

  /** A store in which nothing was over-issued stays so. */
  lemma ConservesKeepsConserved(s: Store, s': Store)
    requires Conserved(s) && Conserves(s, s') && s'.donations == s.donations
    ensures Conserved(s')
  {
  }

  /** Growing a store twice is growing it once, and the pieces compose. */
  lemma ExtendsChain(s: Store, s1: Store, s2: Store)
    requires Extends(s, s1) && Extends(s1, s2)
    ensures Extends(s, s2)
    ensures Added(s, s2) == Added(s, s1) + Added(s1, s2)
    ensures Total(Added(s, s2)) == Total(Added(s, s1)) + Total(Added(s1, s2))
    ensures Conserves(s, s1) && Conserves(s1, s2) ==> Conserves(s, s2)
  {
    assert s2.issues[..|s.issues|] == s2.issues[..|s1.issues|][..|s.issues|];
    assert s2.issues[|s.issues|..] == s1.issues[|s.issues|..] + s2.issues[|s1.issues|..];
    TotalConcat(Added(s, s1), Added(s1, s2));
  }

  /** The buffer of the allocation loop is sound: every buffered row is still
      a row of the current compatible view, and no donation is buffered twice. */
  predicate ValidBuffer(s: Store, table: Table, t: BloodType, buffer: seq<Row>)
  {
    && (forall i :: 0 <= i < |buffer| ==> buffer[i] in View(s, table, t))
    && (forall i, j :: 0 <= i < j < |buffer| ==> buffer[i].donation != buffer[j].donation)
  }

  /** A fresh fetch is a sound buffer. */
  lemma FetchIsValid(s: Store, table: Table, t: BloodType)
    requires UniqueIds(s.donations)
    ensures ValidBuffer(s, table, t, Fetch(s, table, t))
  {
    var batch := Fetch(s, table, t);
    forall i | 0 <= i < |batch| ensures batch[i] in View(s, table, t) {
      assert batch[i] == View(s, table, t)[i];
    }
  }

  /** An issue against one donation leaves every other row of the view in place. */
  lemma {:induction false} RowStays(donations: seq<Donation>, issues: seq<Issue>, types: set<BloodType>, issue: Issue, r: Row)
    requires r in Outstanding(donations, issues, types) && r.donation != issue.donation
    ensures r in Outstanding(donations, issues + [issue], types)
    decreases |donations|
  {
    assert donations != [];
    var e := donations[0];
    var issues' := issues + [issue];
    IssuedAppend(issues, issue, e.id);
    if Outstands(issues, types, e) && r == RowOf(issues, e) {
      assert RowOf(issues', e) == r && Outstands(issues', types, e);
    } else {
      RowStays(donations[1..], issues, types, issue, r);
    }
  }

  /** Two donations of a store with unique ids that share an id are the same. */
  lemma SameId(donations: seq<Donation>, d: Donation, e: Donation)
    requires UniqueIds(donations) && d in donations && e in donations && d.id == e.id
    ensures d == e
  {
    var i :| 0 <= i < |donations| && donations[i] == d;
    var j :| 0 <= j < |donations| && donations[j] == e;
    if i < j || j < i {
      assert false;
    }
  }

  /** Issuing at most a donation's remaining units against it over-issues nothing. */
  lemma IssueConserves(s: Store, d: Donation, issue: Issue)
    requires UniqueIds(s.donations) && d in s.donations
    requires issue.donation == d.id && 0 < issue.units <= Remaining(s.issues, d)
    ensures Conserves(s, s.(issues := s.issues + [issue]))
  {
    forall e | e in s.donations
      ensures IssuedUnits(s.issues + [issue], e.id) == IssuedUnits(s.issues, e.id)
           || IssuedUnits(s.issues + [issue], e.id) <= e.units
    {
      IssuedAppend(s.issues, issue, e.id);
      if e.id == d.id {
        SameId(s.donations, d, e);
      }
    }
  }

  /** After an issue against the last buffered row, the rest of the buffer is still sound. */
  lemma BufferAfterIssue(s: Store, table: Table, t: BloodType, batch: seq<Row>, issue: Issue)
    requires ValidBuffer(s, table, t, batch) && batch != []
    requires issue.donation == batch[|batch| - 1].donation
    ensures ValidBuffer(s.(issues := s.issues + [issue]), table, t, batch[..|batch| - 1])
  {
    var rest := batch[..|batch| - 1];
    forall i | 0 <= i < |rest| ensures rest[i] in View(s.(issues := s.issues + [issue]), table, t) {
      assert rest[i] == batch[i];
      RowStays(s.donations, s.issues, CompatibleBloodTypes(table, t), issue, rest[i]);
    }
  }

  /** One turn of the allocation loop: issuing `issue`, for at most what the
      last buffered row holds, against that row's donation. */
  lemma IssueStep(s: Store, table: Table, req: RequestId, t: BloodType, batch: seq<Row>, issue: Issue)
    requires UniqueIds(s.donations) && ValidBuffer(s, table, t, batch) && batch != []
    requires issue.request == req && issue.requestBloodType == t
    requires issue.donation == batch[|batch| - 1].donation
    requires 0 < issue.units <= batch[|batch| - 1].units
    ensures Extends(s, s.(issues := s.issues + [issue]))
    ensures Added(s, s.(issues := s.issues + [issue])) == [issue]
    ensures Serves(s.donations, table, req, t, issue)
    ensures Conserves(s, s.(issues := s.issues + [issue]))
    ensures Stock(s.(issues := s.issues + [issue]), table, t) == Stock(s, table, t) - issue.units
    ensures ValidBuffer(s.(issues := s.issues + [issue]), table, t, batch[..|batch| - 1])
  {
    var row := batch[|batch| - 1];
    var s1 := s.(issues := s.issues + [issue]);
    var types := CompatibleBloodTypes(table, t);
    assert row in View(s, table, t);
    OutstandingRowsCurrent(s.donations, s.issues, types, row);
    var d :| d in s.donations && Outstands(s.issues, types, d) && RowOf(s.issues, d) == row;
    assert s1.issues[..|s.issues|] == s.issues;
    IssueConserves(s, d, issue);
    OutstandingAfterIssue(s.donations, s.issues, types, d, issue);
    BufferAfterIssue(s, table, t, batch, issue);
  }

  /** Fills one demand line of `unitsLeft` units of recipient type `t` for
      request `req`, starting from `buffer`. While units are wanted: when the
      buffer is empty, fetch a batch; when the batch is empty too, stop short;
      otherwise take the LAST buffered row and issue the smaller of its units
      and the units still wanted. */
  function FillLine(s: Store, table: Table, req: RequestId, t: BloodType, unitsLeft: int, buffer: seq<Row>): (r: LineOutcome)
    requires UniqueIds(s.donations)
    requires ValidBuffer(s, table, t, buffer)
    ensures Extends(s, r.store)
    ensures forall i :: i in Added(s, r.store) ==> Serves(s.donations, table, req, t, i)
    ensures Conserves(s, r.store)
    ensures Stock(r.store, table, t) == Stock(s, table, t) - Total(Added(s, r.store))
    ensures unitsLeft <= 0 ==> r == Filled(s)
    ensures r.Filled? && unitsLeft > 0 ==> Total(Added(s, r.store)) == unitsLeft
    ensures r.Short? ==> r.bloodType == t && 0 < r.missing <= unitsLeft
    ensures r.Short? ==> r.missing == unitsLeft - Total(Added(s, r.store)) && View(r.store, table, t) == []
    decreases unitsLeft, if buffer == [] then 1 else 0
  {
    if unitsLeft <= 0 then Filled(s)
    else if buffer == [] then
      var batch := Fetch(s, table, t);
      FetchIsValid(s, table, t);
      if batch == [] then
        assert s.issues[..|s.issues|] == s.issues;
        Short(s, t, unitsLeft)
      else FillLine(s, table, req, t, unitsLeft, batch)
    else
      var row := buffer[|buffer| - 1];
      var n := Min(row.units, unitsLeft);
      assert row in View(s, table, t);
      var issue := Issue(req, row.donation, t, n);
      var s1 := s.(issues := s.issues + [issue]);
      IssueStep(s, table, req, t, buffer, issue);
      var r := FillLine(s1, table, req, t, unitsLeft - n, buffer[..|buffer| - 1]);
      ExtendsChain(s, s1, r.store);
      r
  }

  /** The units of a buffer are the units of all but its last row plus the last row's. */
  lemma {:induction false} RowUnitsLast(rows: seq<Row>)
    requires rows != []
    ensures RowUnits(rows) == RowUnits(rows[..|rows| - 1]) + rows[|rows| - 1].units
    decreases |rows|
  {
    if |rows| > 1 {
      assert rows[1..][..|rows[1..]| - 1] == rows[..|rows| - 1][1..];
      RowUnitsLast(rows[1..]);
    }
  }

  /** One unfolding of `FillLine` on a non-empty buffer. */
  lemma FillLineStep(s: Store, table: Table, req: RequestId, t: BloodType, unitsLeft: int, buffer: seq<Row>)
    requires UniqueIds(s.donations) && ValidBuffer(s, table, t, buffer)
    requires unitsLeft > 0 && buffer != []
    ensures var row := buffer[|buffer| - 1];
      var s1 := s.(issues := s.issues + [Issue(req, row.donation, t, Min(row.units, unitsLeft))]);
      && ValidBuffer(s1, table, t, buffer[..|buffer| - 1])
      && FillLine(s, table, req, t, unitsLeft, buffer) == FillLine(s1, table, req, t, unitsLeft - Min(row.units, unitsLeft), buffer[..|buffer| - 1])
  {
    var row := buffer[|buffer| - 1];
    assert row in View(s, table, t);
    IssueStep(s, table, req, t, buffer, Issue(req, row.donation, t, Min(row.units, unitsLeft)));
  }

  /** The issues `added` walk `buffer` from its end: the k-th issue draws on
      the k-th row from the end, and every row but the last one drawn on is
      drained completely. */
  predicate DrawsFromEnd(added: seq<Issue>, buffer: seq<Row>)
  {
    && 0 < |added| <= |buffer|
    && (forall k :: 0 <= k < |added| ==> added[k].donation == buffer[|buffer| - 1 - k].donation)
    && (forall k :: 0 <= k < |added| - 1 ==> added[k].units == buffer[|buffer| - 1 - k].units)
  }

  lemma DrawsFromEndCons(issue: Issue, added: seq<Issue>, buffer: seq<Row>)
    requires buffer != [] && issue.donation == buffer[|buffer| - 1].donation
    requires added != [] ==> issue.units == buffer[|buffer| - 1].units && DrawsFromEnd(added, buffer[..|buffer| - 1])
    ensures DrawsFromEnd([issue] + added, buffer)
  {
    var rest := buffer[..|buffer| - 1];
    forall k | 1 <= k < |added| + 1 ensures ([issue] + added)[k].donation == buffer[|buffer| - 1 - k].donation {
      assert rest[|rest| - 1 - (k - 1)] == buffer[|buffer| - 1 - k];
    }
    forall k | 1 <= k < |added| ensures ([issue] + added)[k].units == buffer[|buffer| - 1 - k].units {
      assert rest[|rest| - 1 - (k - 1)] == buffer[|buffer| - 1 - k];
    }
  }

  /** A buffer is consumed from its end without refetching while it holds
      enough: when the `unitsLeft` wanted fit in the buffer, the line is
      filled by issues that walk the buffer from its end. */
  lemma {:induction false} BufferConsumedFromEnd(s: Store, table: Table, req: RequestId, t: BloodType, unitsLeft: int, buffer: seq<Row>)
    requires UniqueIds(s.donations) && ValidBuffer(s, table, t, buffer)
    requires 0 < unitsLeft <= RowUnits(buffer)
    ensures FillLine(s, table, req, t, unitsLeft, buffer).Filled?
    ensures DrawsFromEnd(Added(s, FillLine(s, table, req, t, unitsLeft, buffer).store), buffer)
    decreases |buffer|
  {
    RowUnitsNonNegative(buffer);
    if buffer == [] {
      assert false;
    }
    var row := buffer[|buffer| - 1];
    var rest := buffer[..|buffer| - 1];
    var n := Min(row.units, unitsLeft);
    var issue := Issue(req, row.donation, t, n);
    var s1 := s.(issues := s.issues + [issue]);
    assert row in View(s, table, t);
    IssueStep(s, table, req, t, buffer, issue);
    FillLineStep(s, table, req, t, unitsLeft, buffer);
    var r := FillLine(s1, table, req, t, unitsLeft - n, rest);
    ExtendsChain(s, s1, r.store);
    if n < unitsLeft {
      RowUnitsLast(buffer);
      assert forall x :: x in rest ==> x in buffer;
      RowUnitsNonNegative(rest);
      BufferConsumedFromEnd(s1, table, req, t, unitsLeft - n, rest);
    } else {
      assert s1.issues[|s1.issues|..] == [];
    }
    DrawsFromEndCons(issue, Added(s1, r.store), buffer);
  }

  /** A line that the first batch covers is served from that batch alone,
      starting from its last row. */
  lemma FirstBatchConsumedFromEnd(s: Store, table: Table, req: RequestId, t: BloodType, units: int)
    requires UniqueIds(s.donations)
    requires 0 < units <= RowUnits(Fetch(s, table, t))
    ensures FillLine(s, table, req, t, units, []).Filled?
    ensures DrawsFromEnd(Added(s, FillLine(s, table, req, t, units, []).store), Fetch(s, table, t))
  {
    var batch := Fetch(s, table, t);
    FetchIsValid(s, table, t);
    RowUnitsNonNegative(batch);
    BufferConsumedFromEnd(s, table, req, t, units, batch);
    FillLineFetches(s, table, req, t, units);
  }

  /** With units wanted and an empty buffer, the line goes on exactly as if
      it had been handed the fetched batch. */
  lemma FillLineFetches(s: Store, table: Table, req: RequestId, t: BloodType, units: int)
    requires UniqueIds(s.donations) && units > 0
    ensures ValidBuffer(s, table, t, Fetch(s, table, t))
    ensures FillLine(s, table, req, t, units, []) == FillLine(s, table, req, t, units, Fetch(s, table, t))
  {
    FetchIsValid(s, table, t);
  }

  /** The total units of a list of demand lines; a line asking for no units
      or fewer contributes nothing. */
  function Demand(lines: seq<Distributions.Line>): int
  {
    if lines == [] then 0 else (if lines[0].1 > 0 then lines[0].1 else 0) + Demand(lines[1..])
  }

  /** The blood types of a list of demand lines. */
  function LineTypes(lines: seq<Distributions.Line>): set<BloodType>
  {
    set k | 0 <= k < |lines| :: lines[k].0
  }

  /** Fills the lines of an MCI request in order, each from an empty buffer;
      the first line that falls short ends the whole fill. */
  function FillLines(s: Store, table: Table, req: RequestId, lines: seq<Distributions.Line>): (r: LineOutcome)
    requires UniqueIds(s.donations)
    ensures Extends(s, r.store)
    ensures forall i :: i in Added(s, r.store) ==>
      i.requestBloodType in LineTypes(lines) && Serves(s.donations, table, req, i.requestBloodType, i)
    ensures Conserves(s, r.store)
    ensures r.Filled? ==> Total(Added(s, r.store)) == Demand(lines)
    ensures r.Short? ==> r.bloodType in LineTypes(lines) && r.missing > 0 && View(r.store, table, r.bloodType) == []
    decreases |lines|
  {
    if lines == [] then
      assert s.issues[..|s.issues|] == s.issues;
      Filled(s)
    else
      var first := FillLine(s, table, req, lines[0].0, lines[0].1, []);
      LineTypesCons(lines);
      if first.Short? then first
      else
        var s1 := first.store;
        var r := FillLines(s1, table, req, lines[1..]);
        ExtendsChain(s, s1, r.store);
        assert forall i :: i in Added(s, r.store) ==> i in Added(s, s1) || i in Added(s1, r.store);
        r
  }

  lemma LineTypesCons(lines: seq<Distributions.Line>)
    requires lines != []
    ensures LineTypes(lines) == {lines[0].0} + LineTypes(lines[1..])
  {
    forall k | 0 <= k < |lines[1..]| ensures lines[1..][k].0 in LineTypes(lines) {
      assert lines[1..][k] == lines[k + 1];
    }
    forall t | t in LineTypes(lines) ensures t in {lines[0].0} + LineTypes(lines[1..]) {
      var k :| 0 <= k < |lines| && lines[k].0 == t;
      if k > 0 {
        assert lines[1..][k - 1] == lines[k];
      }
    }
  }

  /** MCI lines are taken strictly in order: filling `a + b` is filling `a`,
      then, only when every line of `a` was filled, filling `b` from where
      `a` left the store. */
  lemma {:induction false} FillLinesInOrder(s: Store, table: Table, req: RequestId, a: seq<Distributions.Line>, b: seq<Distributions.Line>)
    requires UniqueIds(s.donations)
    ensures FillLines(s, table, req, a + b) ==
      match FillLines(s, table, req, a)
      case Filled(s1) => FillLines(s1, table, req, b)
      case Short(_, _, _) => FillLines(s, table, req, a)
    decreases |a|
  {
    if a == [] {
      assert a + b == b;
    } else {
      assert (a + b)[0] == a[0] && (a + b)[1..] == a[1..] + b;
      var first := FillLine(s, table, req, a[0].0, a[0].1, []);
      if first.Filled? {
        FillLinesInOrder(first.store, table, req, a[1..], b);
      }
    }
  }

  /** The outstanding units are never negative. */
  lemma {:induction false} RowUnitsNonNegative(rows: seq<Row>)
    requires forall r :: r in rows ==> r.units > 0
    ensures RowUnits(rows) >= 0
    ensures rows != [] ==> RowUnits(rows) > 0
    decreases |rows|
  {
    if rows != [] {
      assert forall r :: r in rows[1..] ==> r in rows;
      RowUnitsNonNegative(rows[1..]);
    }
  }

  /** A line is filled exactly when the compatible stock covers it; when it
      falls short, it has drawn the whole compatible stock and is missing the
      difference. */
  lemma FillLineSucceedsIffStock(s: Store, table: Table, req: RequestId, t: BloodType, units: int)
    requires UniqueIds(s.donations)
    ensures FillLine(s, table, req, t, units, []).Filled? <==> units <= Stock(s, table, t)
    ensures FillLine(s, table, req, t, units, []).Short? ==> FillLine(s, table, req, t, units, []).missing == units - Stock(s, table, t)
  {
    var r := FillLine(s, table, req, t, units, []);
    RowUnitsNonNegative(View(s, table, t));
    RowUnitsNonNegative(View(r.store, table, t));
  }

  /** Creating and filling a single-patient request, as one transaction: the
      request is recorded, its one line of `units` units of the patient's type
      `t` is filled, and on a shortfall everything is rolled back and
      `CanNotFulfill` reports the type and the units still missing. */
  function CreateAndFillSingleRequest(s: Store, table: Table, patient: string, t: BloodType, units: int): (tx: Transaction)
    requires UniqueIds(s.donations)
    ensures tx.outcome.Failure? ==> tx.store == s
    ensures tx.outcome.Failure? ==> tx.outcome.error == CanNotFulfill(t, units - Stock(s, table, t)) && 0 < units - Stock(s, table, t) <= units
    ensures tx.outcome.Success? <==> units <= Stock(s, table, t)
    ensures tx.outcome.Success? ==>
      && tx.outcome.value == |s.requests|
      && tx.store.requests == s.requests + [SingleRequest(patient, units)]
      && tx.store.donations == s.donations
      && |s.issues| <= |tx.store.issues| && tx.store.issues[..|s.issues|] == s.issues
      && (forall i :: i in tx.store.issues[|s.issues|..] ==> Serves(s.donations, table, |s.requests|, t, i))
      && Total(tx.store.issues[|s.issues|..]) == (if units > 0 then units else 0)
      && Conserves(s, tx.store)
  {
    var req := |s.requests|;
    var s0 := s.(requests := s.requests + [SingleRequest(patient, units)]);
    var r := FillLine(s0, table, req, t, units, []);
    FillLineSucceedsIffStock(s0, table, req, t, units);
    assert Stock(s0, table, t) == Stock(s, table, t);
    if r.Filled? then Transaction(r.store, Success(req))
    else Transaction(s, Failure(CanNotFulfill(r.bloodType, r.missing)))
  }

  /** Creating and filling an MCI request, as one transaction: the request is
      recorded, the distribution resolved into lines, and the lines filled in
      order; if the distribution cannot be resolved or any line falls short,
      everything is rolled back, including the issues of the lines already
      filled. */
  function CreateAndFillMciRequest(s: Store, table: Table, catalog: Distributions.Catalog, dist: Distributions.Distribution, units: int)
    : (tx: Transaction)
    requires UniqueIds(s.donations)
    ensures tx.outcome.Failure? ==> tx.store == s
    ensures tx.outcome.Failure? && tx.outcome.error.DistributionFailed? ==>
      tx.outcome.error.error != Distributions.AbstractDistributionType
    ensures (tx.outcome.Failure? && tx.outcome.error.DistributionFailed?) <==>
      Distributions.ResolveDistribution(catalog, dist, units).Failure?
    ensures tx.outcome.Failure? && tx.outcome.error.CanNotFulfill? ==>
      && tx.outcome.error.units > 0
      && tx.outcome.error.bloodType in LineTypes(Distributions.ResolveDistribution(catalog, dist, units).value)
    ensures tx.outcome.Success? ==>
      && tx.outcome.value == |s.requests|
      && tx.store.requests == s.requests + [MciRequest(dist.id, units)]
      && tx.store.donations == s.donations
      && |s.issues| <= |tx.store.issues| && tx.store.issues[..|s.issues|] == s.issues
      && (forall i :: i in tx.store.issues[|s.issues|..] ==> Serves(s.donations, table, |s.requests|, i.requestBloodType, i))
      && Total(tx.store.issues[|s.issues|..]) == Demand(Distributions.ResolveDistribution(catalog, dist, units).value)
      && Conserves(s, tx.store)
  {
    var req := |s.requests|;
    var s0 := s.(requests := s.requests + [MciRequest(dist.id, units)]);
    match Distributions.ResolveDistribution(catalog, dist, units)
    case Failure(e) => Transaction(s, Failure(DistributionFailed(e)))
    case Success(lines) =>
      match FillLines(s0, table, req, lines)
      case Filled(s1) => Transaction(s1, Success(req))
      case Short(_, bloodType, missing) => Transaction(s, Failure(CanNotFulfill(bloodType, missing)))
  }
}
