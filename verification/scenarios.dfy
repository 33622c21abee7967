/** Worked examples of the allocation engine on small inventories, run with
    the application's own compatibility table unless stated otherwise. */
module Scenarios {
  import opened Results
  import opened BloodTypes
  import opened Inventory
  import opened FillRequest

  /** A universal O- donation serves an A+ patient: three of its five units
      are issued in one piece and two stay outstanding. */
  lemma SingleRequestFromUniversalDonor()
    ensures var s := Store([Donation(1, ONeg, 5)], [], []);
      var tx := CreateAndFillSingleRequest(s, AsWritten, "0123456789", APos, 3);
      && tx.outcome == Success(0)
      && tx.store.issues == [Issue(0, 1, APos, 3)]
      && Stock(tx.store, AsWritten, APos) == 2
  {
    var s := Store([Donation(1, ONeg, 5)], [], []);
    assert UniqueIds(s.donations);
    assert ONeg in CompatibleBloodTypes(AsWritten, APos);
  }

  /** An AB- donation of 2 units cannot cover an AB+ patient needing 5: AB- may
      give to AB+, so the shortfall reported is 3 units, and nothing is issued. */
  lemma SingleRequestShort()
    ensures var s := Store([Donation(1, ABNeg, 2)], [], []);
      var tx := CreateAndFillSingleRequest(s, AsWritten, "0123456789", ABPos, 5);
      && tx.outcome == Failure(CanNotFulfill(ABPos, 3))
      && tx.store == s
  {
    assert ABNeg in CompatibleBloodTypes(AsWritten, ABPos);
  }

  /** A 50/50 O+/A+ MCI request for 3 units asks for 2 O+ and 2 A+. With only
      2 O+ units in stock the O+ line is filled, the A+ line finds nothing
      left, and the whole request is rolled back: only the A+ shortfall is
      reported and no issue survives. */
  lemma MciRequestRolledBack()
    ensures var s := Store([Donation(1, OPos, 2)], [], []);
      var catalog := Distributions.Catalog({7}, [Distributions.Percentage(7, OPos, 5000), Distributions.Percentage(7, APos, 5000)]);
      var dist := Distributions.Distribution(7, "population", Some("pop"), Distributions.PopulationDistribution);
      var tx := CreateAndFillMciRequest(s, AsWritten, catalog, dist, 3);
      && tx.outcome == Failure(CanNotFulfill(APos, 2))
      && tx.store == s
  {
    var s := Store([Donation(1, OPos, 2)], [], []);
    var catalog := Distributions.Catalog({7}, [Distributions.Percentage(7, OPos, 5000), Distributions.Percentage(7, APos, 5000)]);
    var dist := Distributions.Distribution(7, "population", Some("pop"), Distributions.PopulationDistribution);
    var lines: seq<Distributions.Line> := [(OPos, 2), (APos, 2)];
    HalfAndHalfLines(catalog, dist);
    var s0 := s.(requests := [MciRequest(7, 3)]);
    var s1 := OPosLineDrainsDonation(s0);
    FillLineSucceedsIffStock(s1, AsWritten, 0, APos, 2);
    assert lines[1..][1..] == [];
    assert FillLines(s0, AsWritten, 0, lines) == FillLine(s1, AsWritten, 0, APos, 2, []);
  }

  /** That request's distribution resolves to 2 O+ and 2 A+ units. */
  lemma HalfAndHalfLines(catalog: Distributions.Catalog, dist: Distributions.Distribution)
    requires catalog == Distributions.Catalog({7}, [Distributions.Percentage(7, OPos, 5000), Distributions.Percentage(7, APos, 5000)])
    requires dist == Distributions.Distribution(7, "population", Some("pop"), Distributions.PopulationDistribution)
    ensures Distributions.ResolveDistribution(catalog, dist, 3) == Success([(OPos, 2), (APos, 2)])
  {
    Distributions.RoundingOverProvisions();
    assert catalog.percentages[1..][1..] == [];
  }

  /** The O+ line of that request takes both units of the O+ donation. */
  lemma OPosLineDrainsDonation(s0: Store) returns (s1: Store)
    requires s0 == Store([Donation(1, OPos, 2)], [MciRequest(7, 3)], [])
    ensures FillLine(s0, AsWritten, 0, OPos, 2, []) == Filled(s1)
    ensures s1.donations == s0.donations && View(s1, AsWritten, APos) == []
  {
    assert OPos in CompatibleBloodTypes(AsWritten, OPos);
    assert View(s0, AsWritten, OPos) == [Row(1, OPos, 2)];
    FillLineSucceedsIffStock(s0, AsWritten, 0, OPos, 2);
    s1 := FillLine(s0, AsWritten, 0, OPos, 2, []).store;
    RowUnitsNonNegative(View(s1, AsWritten, OPos));
    NothingLeftForAPos(s1);
  }

  /** Once the O+ view of a store holding one O+ donation is empty, so is its
      A+ view: the donation has no units left. */
  lemma NothingLeftForAPos(s: Store)
    requires s.donations == [Donation(1, OPos, 2)] && View(s, AsWritten, OPos) == []
    ensures View(s, AsWritten, APos) == []
  {
    var d := Donation(1, OPos, 2);
    assert OPos in CompatibleBloodTypes(AsWritten, OPos) && OPos in CompatibleBloodTypes(AsWritten, APos);
    assert !Outstands(s.issues, CompatibleBloodTypes(AsWritten, OPos), d);
  }

  /** The missing A- -> AB- entry at work: with only A- blood in stock, an
      AB- patient needing 1 unit is refused by the application's table,
      while the corrected table serves the patient from the A- donation. */
  lemma ABNegPatientRefusedANegBlood()
    ensures var s := Store([Donation(1, ANeg, 5)], [], []);
      var tx := CreateAndFillSingleRequest(s, AsWritten, "0123456789", ABNeg, 1);
      && tx.outcome == Failure(CanNotFulfill(ABNeg, 1))
      && tx.store == s
    ensures var s := Store([Donation(1, ANeg, 5)], [], []);
      var tx := CreateAndFillSingleRequest(s, Corrected, "0123456789", ABNeg, 1);
      && tx.outcome == Success(0)
      && tx.store.issues == [Issue(0, 1, ABNeg, 1)]
  {
    assert ANeg !in CompatibleBloodTypes(AsWritten, ABNeg);
    assert ANeg in CompatibleBloodTypes(Corrected, ABNeg);
  }
}
