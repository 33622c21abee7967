/** The eight blood types and the fixed donor/recipient compatibility relation. */
module BloodTypes {
  import opened Results

  datatype BloodType = APos | OPos | BPos | ABPos | ANeg | ONeg | BNeg | ABNeg

  /** The types in the order the application lists them. */
  const AvailableTypes: seq<BloodType> := [APos, OPos, BPos, ABPos, ANeg, ONeg, BNeg, ABNeg]

  const AllTypes: set<BloodType> := {APos, OPos, BPos, ABPos, ANeg, ONeg, BNeg, ABNeg}

  /** Every value of the datatype is one of the eight listed types. */
  lemma InTables(t: BloodType)
    ensures t in AllTypes && t in AvailableTypes
  {
    match t
    case APos => case OPos => case BPos => case ABPos =>
    case ANeg => case ONeg => case BNeg => case ABNeg =>
  }

  /** The textual symbol the application stores for a type: the ABO group
      names the A and B antigens the type carries, and the sign says whether
      it carries Rh(D). */
  function Symbol(t: BloodType): (sym: string)
    ensures 2 <= |sym| <= 3
    ensures sym[|sym| - 1] == (if HasD(t) then '+' else '-')
    ensures 'A' in sym <==> HasA(t)
    ensures 'B' in sym <==> HasB(t)
    ensures 'O' in sym <==> !HasA(t) && !HasB(t)
  {
    match t
    case APos => "A+"
    case OPos => "O+"
    case BPos => "B+"
    case ABPos => "AB+"
    case ANeg => "A-"
    case ONeg => "O-"
    case BNeg => "B-"
    case ABNeg => "AB-"
  }

  /** Reads a stored symbol back; anything other than the eight symbols is rejected. */
  function Parse(s: string): (r: Option<BloodType>)
    ensures r.Some? ==> Symbol(r.value) == s
  {
    if s == "A+" then Some(APos)
    else if s == "O+" then Some(OPos)
    else if s == "B+" then Some(BPos)
    else if s == "AB+" then Some(ABPos)
    else if s == "A-" then Some(ANeg)
    else if s == "O-" then Some(ONeg)
    else if s == "B-" then Some(BNeg)
    else if s == "AB-" then Some(ABNeg)
    else None
  }

  /** Every symbol reads back as the type it was written from, and a string
      that is no type's symbol is rejected. */
  lemma ParseSymbol()
    ensures forall t :: Parse(Symbol(t)) == Some(t)
    ensures forall s :: Parse(s).None? <==> forall t :: Symbol(t) != s
  {
    forall s ensures Parse(s).None? <==> forall t :: Symbol(t) != s {
      if Parse(s).None? {
        forall t ensures Symbol(t) != s {
          match t
          case APos =>
          case OPos =>
          case BPos =>
          case ABPos =>
          case ANeg =>
          case ONeg =>
          case BNeg =>
          case ABNeg =>
        }
      }
    }
  }

  /** There are exactly eight types, listed once each, with eight distinct symbols. */
  lemma EightDistinctTypes()
    ensures |AvailableTypes| == 8
    ensures forall t :: t in AvailableTypes
    ensures forall i, j :: 0 <= i < j < |AvailableTypes| ==> AvailableTypes[i] != AvailableTypes[j]
    ensures forall i, j :: 0 <= i < j < |AvailableTypes| ==> Symbol(AvailableTypes[i]) != Symbol(AvailableTypes[j])
  {
    forall t ensures t in AvailableTypes {
      InTables(t);
    }
  }

  /** The donor -> recipients table exactly as the application writes it down;
      it has an entry for every type. */
  function CanDonateAsWritten(donor: BloodType): (recipients: set<BloodType>)
    ensures donor in recipients && ABPos in recipients
    ensures HasD(donor) ==> forall r :: r in recipients ==> HasD(r)
  {
    match donor
    case ONeg => {APos, ANeg, BPos, BNeg, ABPos, ABNeg, OPos, ONeg}
    case OPos => {APos, BPos, ABPos, OPos}
    case ANeg => {APos, ANeg, ABPos}
    case APos => {APos, ABPos}
    case BNeg => {BPos, BNeg, ABPos, ABNeg}
    case BPos => {BPos, ABPos}
    case ABNeg => {ABPos, ABNeg}
    case ABPos => {ABPos}
  }

  /** The donor -> recipients table with the A- entry completed by AB-,
      the one recipient the written table leaves out (see `ANegToABNegMissing`). */
  function CanDonate(donor: BloodType): set<BloodType>
  {
    if donor == ANeg then CanDonateAsWritten(ANeg) + {ABNeg} else CanDonateAsWritten(donor)
  }

  /** The order in which the table's entries are visited when it is inverted. */
  const DonorOrder: seq<BloodType> := [ONeg, OPos, ANeg, APos, BNeg, BPos, ABNeg, ABPos]

  /** Every type is visited by the inversion. */
  lemma DonorOrderComplete()
    ensures forall t :: t in DonorOrder
  {
    forall t ensures t in DonorOrder {
      match t
      case APos => case OPos => case BPos => case ABPos =>
      case ANeg => case ONeg => case BNeg => case ABNeg =>
    }
  }

  /** The inner loop of the inversion: every recipient of `donor` gains `donor`
      as a compatible donor, a recipient seen for the first time starting from
      the empty set. */
  function AddDonor(table: BloodType -> set<BloodType>, acc: map<BloodType, set<BloodType>>, donor: BloodType)
    : (r: map<BloodType, set<BloodType>>)
    ensures r.Keys == acc.Keys + table(donor)
    ensures forall k, d :: k in r && d in r[k] <==> (k in acc && d in acc[k]) || (k in table(donor) && d == donor)
  {
    map k | k in acc.Keys + table(donor) ::
      (if k in acc then acc[k] else {}) + (if k in table(donor) then {donor} else {})
  }

  /** The outer loop of the inversion, visiting the table's entries in order. */
  function DeriveCanReceive(table: BloodType -> set<BloodType>, acc: map<BloodType, set<BloodType>>, donors: seq<BloodType>)
    : (derived: map<BloodType, set<BloodType>>)
    ensures forall k :: k in acc ==> k in derived && acc[k] <= derived[k]
    decreases |donors|
  {
    if donors == [] then acc
    else
      var acc' := AddDonor(table, acc, donors[0]);
      var derived := DeriveCanReceive(table, acc', donors[1..]);
      assert forall k :: k in acc ==> k in acc' && acc[k] <= acc'[k];
      derived
  }

  /** The inversion is exact for any table, starting map and visiting order:
      a donor is recorded for a recipient exactly when that donor was visited
      and its entry lists the recipient, and every listed recipient gets a key. */
  lemma {:induction false} DeriveCanReceiveInverts(table: BloodType -> set<BloodType>, acc: map<BloodType, set<BloodType>>,
                                                   donors: seq<BloodType>, k: BloodType, d: BloodType)
    ensures k in DeriveCanReceive(table, acc, donors) && d in DeriveCanReceive(table, acc, donors)[k] <==>
      (k in acc && d in acc[k]) || (d in donors && k in table(d))
    ensures k in acc ==> k in DeriveCanReceive(table, acc, donors)
    ensures d in donors && k in table(d) ==> k in DeriveCanReceive(table, acc, donors)
    decreases |donors|
  {
    if donors != [] {
      var acc' := AddDonor(table, acc, donors[0]);
      DeriveCanReceiveInverts(table, acc', donors[1..], k, d);
      assert d in donors <==> d == donors[0] || d in donors[1..];
    }
  }

  /** Inverting a table in which O- lists every type, visiting every donor,
      yields an entry for every type holding exactly the donors that list it. */
  lemma InvertTable(table: BloodType -> set<BloodType>, donors: seq<BloodType>)
    requires table(ONeg) == AllTypes
    requires forall t :: t in donors
    ensures forall r :: r in DeriveCanReceive(table, map[], donors)
    ensures forall r, d :: r in DeriveCanReceive(table, map[], donors) && d in DeriveCanReceive(table, map[], donors)[r] <==> r in table(d)
  {
    forall r, d ensures r in DeriveCanReceive(table, map[], donors) &&
      (d in DeriveCanReceive(table, map[], donors)[r] <==> r in table(d))
    {
      InTables(r);
      DeriveCanReceiveInverts(table, map[], donors, r, d);
      DeriveCanReceiveInverts(table, map[], donors, r, ONeg);
    }
  }

  /** O- lists every type in both tables. */
  lemma ONegListsAll()
    ensures CanDonateAsWritten(ONeg) == AllTypes && CanDonate(ONeg) == AllTypes
  {
  }

  /** The recipient -> donors table derived from the written donor table. */
  const CanReceiveAsWritten: map<BloodType, set<BloodType>> := DeriveCanReceive(CanDonateAsWritten, map[], DonorOrder)

  /** The recipient -> donors table the allocation uses, derived from `CanDonate`. */
  const CanReceive: map<BloodType, set<BloodType>> := DeriveCanReceive(CanDonate, map[], DonorOrder)

  /** Each derived table has an entry for every type and is exactly the inverse of its donor table. */
  lemma CanReceiveIsInverse()
    ensures forall r :: r in CanReceiveAsWritten && r in CanReceive
    ensures forall r, d :: r in CanReceiveAsWritten && d in CanReceiveAsWritten[r] <==> r in CanDonateAsWritten(d)
    ensures forall r, d :: r in CanReceive && d in CanReceive[r] <==> r in CanDonate(d)
  {
    ONegListsAll();
    DonorOrderComplete();
    InvertTable(CanDonateAsWritten, DonorOrder);
    InvertTable(CanDonate, DonorOrder);
  }

  /** The lookup `CAN_RECEIVE[r]` in the table derived from the written donor table. */
  function ReceivesFromAsWritten(r: BloodType): (donors: set<BloodType>)
    ensures forall d :: d in donors <==> r in CanDonateAsWritten(d)
  {
    CanReceiveIsInverse();
    CanReceiveAsWritten[r]
  }

  /** Which donor table the allocation consults: the one the application
      writes down, or the one completed by the antigen rule. */
  datatype Table = AsWritten | Corrected

  /** The recipients of `donor` in the chosen donor table. */
  function DonorTable(table: Table, donor: BloodType): set<BloodType>
  {
    match table
    case AsWritten => CanDonateAsWritten(donor)
    case Corrected => CanDonate(donor)
  }

  /** The donor types whose blood a recipient of type `r` may receive.
      The allocation code imports this name from the compatibility module,
      which does not define it; it is taken to be the lookup `CAN_RECEIVE[r]`,
      written out here per recipient (`CompatibleIsCanReceive` shows the two
      agree). With `AsWritten` this is the application's lookup; with
      `Corrected` it is the lookup in the table the antigen rule gives. */
  function CompatibleBloodTypes(table: Table, r: BloodType): (donors: set<BloodType>)
    ensures forall d :: d in donors <==> r in DonorTable(table, d)
  {
    match r
    case APos => {APos, ANeg, OPos, ONeg}
    case OPos => {OPos, ONeg}
    case BPos => {BPos, BNeg, OPos, ONeg}
    case ABPos => {APos, OPos, BPos, ABPos, ANeg, ONeg, BNeg, ABNeg}
    case ANeg => {ANeg, ONeg}
    case ONeg => {ONeg}
    case BNeg => {BNeg, ONeg}
    case ABNeg => if table == AsWritten then {ONeg, BNeg, ABNeg} else {ANeg, ONeg, BNeg, ABNeg}
  }

  /** The written-out lookup is the derived `CAN_RECEIVE`: the as-written
      lookup agrees donor for donor with the table derived from the written
      donor table, the corrected one with the table derived from the
      corrected donor table, and every recipient has an entry in both. */
  lemma CompatibleIsCanReceive(r: BloodType, d: BloodType)
    ensures r in CanReceiveAsWritten && (d in CanReceiveAsWritten[r] <==> d in CompatibleBloodTypes(AsWritten, r))
    ensures r in CanReceive && (d in CanReceive[r] <==> d in CompatibleBloodTypes(Corrected, r))
  {
    AsWrittenLookupAgrees(r, d);
    CorrectedLookupAgrees(r, d);
  }

  /** One entry of the as-written lookup against the table derived from the written donor table. */
  lemma AsWrittenLookupAgrees(r: BloodType, d: BloodType)
    ensures r in CanReceiveAsWritten && (d in CanReceiveAsWritten[r] <==> d in CompatibleBloodTypes(AsWritten, r))
  {
    CanReceiveIsInverse();
    assert d in CompatibleBloodTypes(AsWritten, r) <==> r in CanDonateAsWritten(d);
  }

  /** One entry of the corrected lookup against the table derived from the corrected donor table. */
  lemma CorrectedLookupAgrees(r: BloodType, d: BloodType)
    ensures r in CanReceive && (d in CanReceive[r] <==> d in CompatibleBloodTypes(Corrected, r))
  {
    CanReceiveIsInverse();
    assert d in CompatibleBloodTypes(Corrected, r) <==> r in CanDonate(d);
  }

  /** Whether red cells of a type carry the A antigen, the B antigen and the
      Rh(D) antigen (the types whose symbol contains 'A', 'B', '+'). */
  predicate HasA(t: BloodType) { t == APos || t == ANeg || t == ABPos || t == ABNeg }
  predicate HasB(t: BloodType) { t == BPos || t == BNeg || t == ABPos || t == ABNeg }
  predicate HasD(t: BloodType) { t == APos || t == BPos || t == ABPos || t == OPos }

  /** A recipient carries every antigen a donor carries: the ABO/Rh rule for
      red-cell transfusion. */
  predicate AntigensCovered(donor: BloodType, recipient: BloodType)
  {
    && (HasA(donor) ==> HasA(recipient))
    && (HasB(donor) ==> HasB(recipient))
    && (HasD(donor) ==> HasD(recipient))
  }

  lemma AntigenRuleFor(d: BloodType, r: BloodType)
    ensures r in CanDonate(d) <==> AntigensCovered(d, r)
    ensures r in CanDonateAsWritten(d) <==> AntigensCovered(d, r) && (d, r) != (ANeg, ABNeg)
  {
    match d
    case APos => InTables(r);
    case OPos => InTables(r);
    case BPos => InTables(r);
    case ABPos => InTables(r);
    case ANeg => InTables(r);
    case ONeg => InTables(r);
    case BNeg => InTables(r);
    case ABNeg => InTables(r);
  }

  /** The corrected table is exactly the ABO/Rh rule: a donor may give to a
      recipient when the recipient carries every antigen the donor does. */
  lemma CanDonateIsAntigenRule()
    ensures forall d, r :: r in CanDonate(d) <==> AntigensCovered(d, r)
  {
    forall d, r ensures r in CanDonate(d) <==> AntigensCovered(d, r) {
      AntigenRuleFor(d, r);
    }
  }

  /** The written table agrees with the ABO/Rh rule everywhere except one
      cell: it does not let A- give to AB-, although AB- red cells carry A and
      the B- entry, written the same way, does list AB-. So an AB- recipient is
      never offered A- blood. */
  lemma ANegToABNegMissing()
    ensures AntigensCovered(ANeg, ABNeg) && ABNeg !in CanDonateAsWritten(ANeg)
    ensures ABNeg in CanDonateAsWritten(BNeg)
    ensures ANeg !in CompatibleBloodTypes(AsWritten, ABNeg) && ANeg in CompatibleBloodTypes(Corrected, ABNeg)
    ensures forall d, r :: (d, r) != (ANeg, ABNeg) ==> (r in CanDonateAsWritten(d) <==> AntigensCovered(d, r))
  {
    forall d, r ensures (d, r) != (ANeg, ABNeg) ==> (r in CanDonateAsWritten(d) <==> AntigensCovered(d, r)) {
      AntigenRuleFor(d, r);
    }
  }

  /** Through the derived table as written, an AB- recipient is offered O-,
      B- and AB- blood, and never A-. */
  lemma AsWrittenABNegDonors()
    ensures ANeg !in ReceivesFromAsWritten(ABNeg)
    ensures ONeg in ReceivesFromAsWritten(ABNeg) && BNeg in ReceivesFromAsWritten(ABNeg) && ABNeg in ReceivesFromAsWritten(ABNeg)
  {
  }

  /** A set holding every type is the set of all types. */
  lemma HoldsAll(s: set<BloodType>)
    requires forall t :: t in s
    ensures s == AllTypes
  {
    forall t | t in AllTypes ensures t in s {}
    forall t | t in s ensures t in AllTypes { InTables(t); }
  }

  /** In the written table every type donates to itself, O- donates to all
      eight types, and AB+ donates only to AB+. */
  lemma AsWrittenDonorProperties()
    ensures forall t :: t in CanDonateAsWritten(t)
    ensures CanDonateAsWritten(ONeg) == AllTypes && CanDonateAsWritten(ABPos) == {ABPos}
  {
    forall t ensures t in CanDonateAsWritten(t) {
      InTables(t);
    }
  }

  /** In the written table no Rh-positive donor gives to an Rh-negative recipient. */
  lemma AsWrittenRhRule()
    ensures forall d, r :: HasD(d) && r in CanDonateAsWritten(d) ==> HasD(r)
  {
    forall d, r | HasD(d) && r in CanDonateAsWritten(d) ensures HasD(r) {
      AntigenRuleFor(d, r);
    }
  }

  /** In the derived written recipient table O- is a compatible donor for every recipient. */
  lemma AsWrittenONegGivesToAll()
    ensures forall r :: ONeg in ReceivesFromAsWritten(r)
  {
    forall r ensures ONeg in ReceivesFromAsWritten(r) {
      InTables(r);
    }
  }

  lemma AsWrittenABPosReceivesEach()
    ensures forall t :: t in ReceivesFromAsWritten(ABPos)
  {
    forall t ensures t in ReceivesFromAsWritten(ABPos) {
      AntigenRuleFor(t, ABPos);
    }
  }

  /** In the derived written recipient table AB+ receives from all eight types. */
  lemma AsWrittenABPosReceivesAll()
    ensures ReceivesFromAsWritten(ABPos) == AllTypes
  {
    AsWrittenABPosReceivesEach();
    HoldsAll(ReceivesFromAsWritten(ABPos));
  }

  /** In the corrected tables every type donates to itself, O- donates to
      everyone, and AB+ only to AB+. */
  lemma CompatibilityDonorProperties()
    ensures forall t :: t in CanDonate(t) && t in CompatibleBloodTypes(Corrected, t)
    ensures CanDonate(ONeg) == AllTypes && CanDonate(ABPos) == {ABPos}
  {
    forall t ensures t in CanDonate(t) {
      InTables(t);
    }
  }

  /** With either table every type is compatible with itself. */
  lemma SelfCompatible(table: Table)
    ensures forall t :: t in CompatibleBloodTypes(table, t)
  {
    forall t ensures t in CompatibleBloodTypes(table, t) {
      InTables(t);
    }
  }

  /** With either table O- is compatible with every recipient. */
  lemma ONegGivesToAll(table: Table)
    ensures forall r :: ONeg in CompatibleBloodTypes(table, r)
  {
    forall r ensures ONeg in CompatibleBloodTypes(table, r) {
      InTables(r);
    }
  }

  /** With either table AB+ receives from all eight types. */
  lemma ABPosReceivesAll(table: Table)
    ensures CompatibleBloodTypes(table, ABPos) == AllTypes
  {
    forall t ensures t in CompatibleBloodTypes(table, ABPos) {
      InTables(t);
    }
    HoldsAll(CompatibleBloodTypes(table, ABPos));
  }

  /** In the corrected table no Rh-positive donor gives to an Rh-negative recipient. */
  lemma RhRule()
    ensures forall d, r :: HasD(d) && r in CanDonate(d) ==> HasD(r)
  {
    forall d, r | HasD(d) && r in CanDonate(d) ensures HasD(r) {
      AntigenRuleFor(d, r);
    }
  }
}
