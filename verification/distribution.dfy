/** Blood-type distributions: how a mass-casualty request's total is split
    into one demand line per blood type. */
module Distributions {
  import opened Results
  import opened BloodTypes

  /** The only distribution type there is: population frequencies. */
  const PopulationType: string := "pop"

  /** One percentage row of a population distribution. The percentage is a
      decimal with five digits, two after the point, held exactly as an
      integer number of hundredths of a percent. */
  datatype Percentage = Percentage(distribution: nat, bloodType: BloodType, hundredths: int)

  /** One demand line: a blood type and the units wanted of it. */
  type Line = (BloodType, int)

  /** The smallest integer not below `a / b`. */
  function CeilDiv(a: int, b: int): (q: int)
    requires b > 0
    ensures (q - 1) * b < a <= q * b
  {
    var f := (-a) / b;
    assert -a == f * b + (-a) % b;
    -f
  }

  /** `ceil(total * percentage / 100)`, with the percentage in hundredths. */
  function Quantity(total: int, hundredths: int): (q: int)
    ensures (q - 1) * 10000 < total * hundredths <= q * 10000
  {
    CeilDiv(total * hundredths, 10000)
  }

  /** The quantity is the one integer with those bounds, so it is the exact
      ceiling; in particular it is 0 when the total or the percentage is 0. */
  lemma QuantityIsCeiling(total: int, hundredths: int, q: int)
    requires (q - 1) * 10000 < total * hundredths <= q * 10000
    ensures q == Quantity(total, hundredths)
    ensures total == 0 || hundredths == 0 ==> Quantity(total, hundredths) == 0
  {
    var p := Quantity(total, hundredths);
    if total == 0 || hundredths == 0 {
      assert total * hundredths == 0;
      assert (p - 1) * 10000 < 0 <= p * 10000;
    }
  }

  /** The demand lines of a population distribution: one line per percentage
      row, in row order, with the row's type and its rounded-up share. */
  function Resolve(rows: seq<Percentage>, total: int): (lines: seq<Line>)
    ensures |lines| == |rows|
    ensures forall i :: 0 <= i < |rows| ==>
      lines[i].0 == rows[i].bloodType &&
      (lines[i].1 - 1) * 10000 < total * rows[i].hundredths <= lines[i].1 * 10000
  {
    if rows == [] then []
    else [(rows[0].bloodType, Quantity(total, rows[0].hundredths))] + Resolve(rows[1..], total)
  }

  function SumHundredths(rows: seq<Percentage>): int
  {
    if rows == [] then 0 else rows[0].hundredths + SumHundredths(rows[1..])
  }

  function SumUnits(lines: seq<Line>): int
  {
    if lines == [] then 0 else lines[0].1 + SumUnits(lines[1..])
  }

  /** Rounding up gives every line at least its exact share and less than one
      unit more: summed over the lines, the quantities are at least the exact
      total share and exceed it by less than one unit per line. */
  lemma {:induction false} ResolveBounds(rows: seq<Percentage>, total: int)
    ensures total * SumHundredths(rows) <= SumUnits(Resolve(rows, total)) * 10000
    ensures SumUnits(Resolve(rows, total)) * 10000 < total * SumHundredths(rows) + 10000 * |rows| || rows == []
    decreases |rows|
  {
    if rows != [] {
      var lines := Resolve(rows, total);
      assert lines[1..] == Resolve(rows[1..], total);
      ResolveBounds(rows[1..], total);
      var q := Quantity(total, rows[0].hundredths);
      assert total * SumHundredths(rows) == total * rows[0].hundredths + total * SumHundredths(rows[1..]);
      assert SumUnits(lines) * 10000 == q * 10000 + SumUnits(lines[1..]) * 10000;
      if rows[1..] == [] {
        assert SumUnits(lines[1..]) == 0 && SumHundredths(rows[1..]) == 0;
      }
    }
  }

  /** When the percentages add up to at least 100%, a non-negative total is
      covered: the quantities add up to at least the total. */
  lemma ResolveCoversTotal(rows: seq<Percentage>, total: int)
    requires total >= 0 && SumHundredths(rows) >= 10000
    ensures SumUnits(Resolve(rows, total)) >= total
  {
    ResolveBounds(rows, total);
    assert total * SumHundredths(rows) >= total * 10000;
  }

  /** The rows of one distribution, in catalog order. */
  function RowsOf(percentages: seq<Percentage>, id: nat): (rows: seq<Percentage>)
    ensures |rows| <= |percentages|
    ensures forall p :: p in rows <==> p in percentages && p.distribution == id
  {
    if percentages == [] then []
    else
      assert forall p :: p in percentages <==> p == percentages[0] || p in percentages[1..];
      (if percentages[0].distribution == id then [percentages[0]] else []) + RowsOf(percentages[1..], id)
  }

  /** Filtering keeps catalog order: a single row is kept exactly when it
      belongs to the distribution, and the rows of two catalog stretches are
      the rows of the first followed by those of the second. */
  lemma RowsOfKeepsOrder(a: seq<Percentage>, b: seq<Percentage>, id: nat)
    ensures forall p :: RowsOf([p], id) == (if p.distribution == id then [p] else [])
    ensures RowsOf(a + b, id) == RowsOf(a, id) + RowsOf(b, id)
  {
    forall p ensures RowsOf([p], id) == (if p.distribution == id then [p] else []) {
      RowsOfSingle(p, id);
    }
    RowsOfConcat(a, b, id);
  }

  /** A single row is kept exactly when it belongs to the distribution. */
  lemma RowsOfSingle(p: Percentage, id: nat)
    ensures RowsOf([p], id) == (if p.distribution == id then [p] else [])
  {
    assert [p][1..] == [];
  }

  /** The rows of two catalog stretches are the rows of the first followed
      by those of the second. */
  lemma {:induction false} RowsOfConcat(a: seq<Percentage>, b: seq<Percentage>, id: nat)
    ensures RowsOf(a + b, id) == RowsOf(a, id) + RowsOf(b, id)
    decreases |a|
  {
    if a == [] {
      assert a + b == b;
    } else {
      var head := if a[0].distribution == id then [a[0]] else [];
      assert (a + b)[0] == a[0] && (a + b)[1..] == a[1..] + b;
      assert RowsOf(a + b, id) == head + RowsOf(a[1..] + b, id);
      RowsOfConcat(a[1..], b, id);
      assert head + (RowsOf(a[1..], id) + RowsOf(b, id)) == (head + RowsOf(a[1..], id)) + RowsOf(b, id);
    }
  }

  /** The Python class of a distribution object in hand: the base class, or
      the population subclass. */
  datatype DistClass = BaseDistribution | PopulationDistribution

  /** A distribution object: its stored type tag (absent until first saved)
      and the class it was loaded or created as. */
  datatype Distribution = Distribution(id: nat, name: string, distType: Option<string>, cls: DistClass)

  datatype DistError =
    | AbstractDistributionType                      // the base class has no distribution type
    | UnfamiliarDistributionType(distType: Option<string>)
    | LeafDoesNotExist(id: nat)                     // no population row for the id

  /** The stored distributions: the ids that have a population row, and all percentage rows. */
  datatype Catalog = Catalog(populationIds: set<nat>, percentages: seq<Percentage>)

  /** The class-level type tag: the base class raises, the population class answers "pop". */
  function DistributionType(c: DistClass): (r: Result<string, DistError>)
    ensures r.Success? <==> c == PopulationDistribution
    ensures r.Success? ==> r.value == PopulationType
    ensures r.Failure? ==> r.error == AbstractDistributionType
  {
    match c
    case BaseDistribution => Failure(AbstractDistributionType)
    case PopulationDistribution => Success(PopulationType)
  }

  /** Dispatch on the stored type tag: only "pop" is known. */
  function Cls(d: Distribution): (r: Result<DistClass, DistError>)
    ensures r.Success? <==> d.distType == Some(PopulationType)
    ensures r.Success? ==> r.value == PopulationDistribution
  {
    if d.distType == Some(PopulationType) then Success(PopulationDistribution)
    else Failure(UnfamiliarDistributionType(d.distType))
  }

  /** Saving fills in a missing type tag from the object's class. The check
      after the fill-in can never fire, because the class-level
      tag either raises or is "pop". */
  function Save(d: Distribution): (r: Result<Distribution, DistError>)
    ensures r.Failure? <==> d.distType.None? && d.cls == BaseDistribution
    ensures r.Success? ==> r.value.distType.Some? && r.value.(distType := d.distType) == d
    ensures d.distType.Some? ==> r == Success(d)
  {
    if d.distType.None? then
      match DistributionType(d.cls)
      case Failure(e) => Failure(e)
      case Success(tag) => Success(d.(distType := Some(tag)))
    else Success(d)
  }

  /** A population object saved without a tag dispatches to the population
      class afterwards; a base object saved without one raises. */
  lemma SaveThenCls(d: Distribution)
    ensures d.distType.None? && d.cls == PopulationDistribution ==>
      Save(d).Success? && Cls(Save(d).value) == Success(PopulationDistribution)
    ensures d.distType.None? && d.cls == BaseDistribution ==> Save(d) == Failure(AbstractDistributionType)
  {
  }

  /** The demand lines of the population distribution stored under `id`. */
  function PopulationLines(catalog: Catalog, id: nat, total: int): seq<Line>
  {
    Resolve(RowsOf(catalog.percentages, id), total)
  }

  /** The demand lines of a distribution for `total` units. A population
      object resolves its own rows. A base object first dispatches on its tag
      and then, since the application tests the `query_required` method object
      itself (always truthy) rather than calling it, always reloads itself as
      its population leaf and resolves the leaf's rows. */
  function ResolveDistribution(catalog: Catalog, d: Distribution, total: int): (r: Result<seq<Line>, DistError>)
    ensures r.Success? ==> r.value == Resolve(RowsOf(catalog.percentages, d.id), total)
    ensures d.cls == PopulationDistribution ==> r.Success?
    ensures d.cls == BaseDistribution ==>
      (r.Success? <==> d.distType == Some(PopulationType) && d.id in catalog.populationIds)
  {
    match d.cls
    case PopulationDistribution => Success(PopulationLines(catalog, d.id, total))
    case BaseDistribution =>
      match Cls(d)
      case Failure(e) => Failure(e)
      case Success(_) =>
        if d.id in catalog.populationIds then Success(PopulationLines(catalog, d.id, total))
        else Failure(LeafDoesNotExist(d.id))
  }

  /** A population distribution of 50% O+ and 50% A+ asked for 3 units
      resolves to 2 units of each: 4 units, one more than asked for. */
  lemma RoundingOverProvisions()
    ensures Resolve([Percentage(1, OPos, 5000), Percentage(1, APos, 5000)], 3) == [(OPos, 2), (APos, 2)]
    ensures SumUnits(Resolve([Percentage(1, OPos, 5000), Percentage(1, APos, 5000)], 3)) == 4
  {
    var rows := [Percentage(1, OPos, 5000), Percentage(1, APos, 5000)];
    QuantityIsCeiling(3, 5000, 2);
    assert rows[1..] == [Percentage(1, APos, 5000)];
    assert rows[1..][1..] == [];
  }
}
