# Bloodline allocation engine, in Dafny

A model of the allocation core of the bloodline blood bank:

- **Compatibility** (`BloodTypes`, blood_types.dfy). It covers:
  - the eight ABO/Rh blood types and their symbols;
  - the hand-written donor → recipients table `CAN_DONATE`;
  - the recipient → donors table `CAN_RECEIVE`, derived from it by the same fold the application runs;
  - the lookup `compatible_blood_types` that the allocation uses. It is parametrized by a `Table`: `AsWritten` reads the application's `CAN_DONATE`, and `Corrected` reads the same table with the missing A- → AB- entry added (see Findings).
- **Inventory** (`Inventory`, inventory.dfy). Donations and issues are immutable records. The outstanding view is *derived* from them: a donation's remaining units are its original units minus everything issued against it. The view lists the donations of the requested donor types that still have units left.
- **Allocation** (`FillRequest`, fill_request.dfy). It covers:
  - the loop that fills one demand line from batches of at most 10 view rows, taking rows off the end of the batch;
  - the MCI (mass-casualty incident) loop over the resolved lines of a distribution;
  - the two atomic create-and-fill entry points, which either commit the request with its issues or leave the store untouched and report `CanNotFulfill`.
- **Distributions** (`Distributions`, distribution.dfy). It covers the closed dispatch on the stored type tag (`cls`, `save`) and the resolution of a population distribution into `(type, ceil(total * pct / 100))` lines. Percentages are `Decimal(5,2)` values, modelled exactly as integer hundredths.
- **Patients** (`Patients`, patient.dfy). It covers ten-digit identity validation, the details lookup, the form's initial data, and the update that saves only when a field changed.
- **Scenarios** (scenarios.dfy): worked examples on small inventories.

`compatible_blood_types` is imported by blood/fill_request.py:3 but not defined in blood/blood_types.py. The model takes it to be the lookup `CAN_RECEIVE[r]`. `CompatibleBloodTypes(AsWritten, r)` writes the application's table out per recipient. `CompatibleIsCanReceive` proves it agrees, donor for donor, with the table `CanReceiveAsWritten` that the fold derives from the written `CAN_DONATE`. It also proves that `CompatibleBloodTypes(Corrected, r)` agrees with the table derived from the corrected donor table.

Every allocation member takes the `Table` as its second argument. Called with `AsWritten`, it models the application as written.

The allocation reads the outstanding view, whose SQL (row order, 30-day age limit) is not part of this model. The model lists rows in the order of the store's donation sequence, which stands for "view order". Every property is stated relative to that order.

## Model

| member | source | states |
|---|---|---|
| BloodTypes.Symbol | blood/blood_types.py:3-12 | a symbol has two or three characters; it ends in `+` exactly for Rh(D)-positive types; it contains `A` or `B` exactly when the red cells carry that antigen, and `O` exactly when they carry neither |
| BloodTypes.EightDistinctTypes | blood/blood_types.py:3-12 | the type list has eight entries, every type occurs in it, and entries and their symbols are pairwise distinct |
| BloodTypes.ParseSymbol | blood/blood_types.py:3-12 | parsing a type's symbol gives the type back, and a string parses to nothing exactly when it is none of the eight symbols |
| BloodTypes.Parse | blood/blood_types.py:3-14 | a parsed type's symbol is the parsed string |
| BloodTypes.CanDonateAsWritten | blood/blood_types.py:16-25 | the table as written: every donor gives to itself and to AB+, and an Rh-positive donor gives only to Rh-positive recipients |
| BloodTypes.AsWrittenDonorProperties | blood/blood_types.py:16-25 | in the table as written every type gives to itself, O- gives to all eight types and AB+ gives only to AB+ |
| BloodTypes.AsWrittenRhRule | blood/blood_types.py:18-24 | in the table as written no Rh-positive donor has an Rh-negative recipient |
| BloodTypes.DeriveCanReceive | blood/blood_types.py:31-41 | the fold only adds: every recipient already in the result keeps its key and all the donors recorded for it (the exact content is stated by `DeriveCanReceiveInverts`) |
| BloodTypes.AddDonor | blood/blood_types.py:34-39 | one step of the fold adds keys for the donor's recipients and records the donor under exactly those keys, keeping all earlier entries |
| BloodTypes.DeriveCanReceiveInverts | blood/blood_types.py:31-41 | after folding over a donor list, a donor is recorded for a recipient exactly when it was recorded before or is a visited donor that gives to that recipient |
| BloodTypes.InvertTable | blood/blood_types.py:31-41 | for any donor table in which O- gives to all, folding over all donors gives a key for every type, and `d` is listed under `r` exactly when `r` is in `d`'s recipients |
| BloodTypes.CanReceiveIsInverse | blood/blood_types.py:31-44 | both derived tables, from the table as written and from the corrected one, have every type as a key and are exactly the inverse of their donor table |
| BloodTypes.ReceivesFromAsWritten | blood/blood_types.py:44 | the as-written lookup lists exactly the donors whose as-written recipients include `r` |
| BloodTypes.AsWrittenONegGivesToAll | blood/blood_types.py:17 | in the as-written derived table, O- is a donor for every recipient |
| BloodTypes.AsWrittenABPosReceivesAll | blood/blood_types.py:16-25 | in the as-written derived table, AB+ receives from all eight types |
| BloodTypes.CompatibleBloodTypes | blood/fill_request.py:43 | with either table, the compatible donors of `r` are exactly the donors whose recipients in that donor table include `r` |
| BloodTypes.CompatibleIsCanReceive | blood/blood_types.py:31-44 | the as-written lookup agrees donor for donor with the `CAN_RECEIVE` that the fold derives from the written `CAN_DONATE`, and the corrected lookup with the table derived from the corrected donor table; every type has an entry in both |
| BloodTypes.ANegToABNegMissing | blood/blood_types.py:19 | the as-written table leaves AB- out of A-'s recipients, although A- red cells carry no antigen AB- lacks and B- is listed for AB-; so the as-written lookup refuses A- to an AB- recipient and the corrected one offers it; every other entry matches the antigen rule |
| BloodTypes.AsWrittenABNegDonors | blood/blood_types.py:19-23 | through the derived table as written, an AB- recipient is offered O-, B- and AB- blood but never A- |
| BloodTypes.AntigenRuleFor | blood/blood_types.py:16-25 | a donor gives to a recipient exactly when every A, B and Rh(D) antigen of the donor is also the recipient's; the as-written table differs from that only at A- → AB- |
| BloodTypes.CanDonateIsAntigenRule | blood/blood_types.py:16-25 | the corrected table is exactly the antigen rule |
| BloodTypes.CompatibilityDonorProperties | blood/blood_types.py:16-25 | with the corrected table, every type gives to and can receive from itself, O- gives to all and AB+ only to AB+ |
| BloodTypes.SelfCompatible | blood/blood_types.py:16-25 | with either table, every type is a compatible donor for itself |
| BloodTypes.ONegGivesToAll | blood/blood_types.py:17 | with either table, O- is a compatible donor for every recipient |
| BloodTypes.ABPosReceivesAll | blood/blood_types.py:16-25 | with either table, AB+ can receive from all eight types |
| BloodTypes.RhRule | blood/blood_types.py:18-24 | in the corrected table no Rh-positive donor gives to an Rh-negative recipient |
| Inventory.IssuedAppend | blood/fill_request.py:53-58 | recording an issue raises the issued total of its own donation by its units and leaves every other donation's total unchanged |
| Inventory.Outstanding | blood/fill_request.py:42-44 | the view has at most one row per donation, lists every donation of a requested type with units left, carrying its remaining units, and each row has positive units, a requested type and a known donation id |
| Inventory.OutstandingRowsCurrent | blood/fill_request.py:42-44 | every view row is the current row of a donation of a requested type that still has units left |
| Inventory.Take | blood/fill_request.py:44 | slicing `[0:10]` gives the first `n` rows, or all of them when there are fewer |
| Inventory.Fetch | blood/fill_request.py:41-44 | a fetch is a prefix of the compatible view of at most 10 rows, and it is empty only when the view is |
| Inventory.OutstandingAfterIssue | blood/fill_request.py:51-58 | issuing at most a donation's remaining units against it lowers the outstanding units of a view by exactly the units issued when the view covers that donation's type, and leaves them unchanged otherwise |
| Inventory.OutstandingUntouched | blood/fill_request.py:53-58 | an issue against a donation outside the list leaves the view unchanged |
| Distributions.CeilDiv | blood/models.py:219 | the quotient is the least integer at or above `a / b` |
| Distributions.Quantity | blood/models.py:219 | a line's quantity is the least integer at or above `total * pct / 100` |
| Distributions.QuantityIsCeiling | blood/models.py:219 | that ceiling is unique, and it is 0 when the total or the percentage is 0 |
| Distributions.Resolve | blood/models.py:215-221 | one line per percentage row, in row order, with the row's type copied unchanged and the ceiling of its share as the quantity |
| Distributions.ResolveBounds | blood/models.py:215-221 | the resolved units are at least the exact total share and less than it plus one unit per row |
| Distributions.ResolveCoversTotal | blood/models.py:215-221 | when the percentages sum to at least 100, the resolved units cover the requested total |
| Distributions.RoundingOverProvisions | blood/models.py:219 | a 50/50 O+/A+ distribution asked for 3 units resolves to 2 + 2 = 4 units |
| Distributions.RowsOf | blood/models.py:218 | the rows of a distribution are exactly the stored rows carrying its id, and there are no more of them than stored rows |
| Distributions.RowsOfKeepsOrder | blood/models.py:218 | the filter keeps catalog order: a single row is kept exactly when it carries the id, and filtering two stretches of the catalog gives the first stretch's rows followed by the second's |
| Distributions.DistributionType | blood/models.py:195-197 | the class-level type tag: the abstract base class raises, and only the population class (blood/models.py:223-225) answers, with "pop" |
| Distributions.Cls | blood/models.py:184-189 | dispatch succeeds, with the population class, exactly when the stored tag is "pop"; any other tag raises |
| Distributions.Save | blood/models.py:175-182 | saving fails exactly for an untagged object of the abstract class; an untagged population object gets a tag; a tagged object is saved as it is |
| Distributions.SaveThenCls | blood/models.py:175-197 | a population object saved without a tag dispatches to the population class afterwards; a base object saved without one raises the abstract-class error |
| Distributions.ResolveDistribution | blood/models.py:203-207 | a population object resolves its own rows; a base object resolves its leaf's rows, and it succeeds exactly when its tag is "pop" and the leaf exists |
| FillRequest.ExtendsChain | blood/fill_request.py:40-60 | issues appended in two steps are the issues of both steps in order, their units add up, and conservation composes |
| FillRequest.ConservesKeepsConserved | blood/fill_request.py:51-58 | when nothing was over-issued before the fill, nothing is over-issued after it |
| FillRequest.FetchIsValid | blood/fill_request.py:41-44 | every row of a fresh batch is a current view row, and no donation appears twice |
| FillRequest.RowStays | blood/fill_request.py:53-58 | an issue against one donation keeps every other donation's row in the view |
| FillRequest.IssueConserves | blood/fill_request.py:51-58 | issuing at most a donation's remaining units over-issues no donation |
| FillRequest.BufferAfterIssue | blood/fill_request.py:49-58 | after issuing against the row popped from the buffer, every row left in the buffer is still current |
| FillRequest.IssueStep | blood/fill_request.py:49-60 | one turn appends one issue; the issue is for the request and the line's type, is positive, and comes from a compatible donation; it over-issues nothing and lowers the compatible stock by exactly its units |
| FillRequest.FillLine | blood/fill_request.py:36-60 | the line only appends issues, each for the request and the line's type, positive, from a compatible donation; nothing is over-issued and the compatible stock drops by exactly the units issued; a demand of 0 or less does nothing; a filled line issues exactly its demand; a short line reports its type and a missing count in (0, demand] equal to the demand minus what it issued, with the compatible view then empty |
| FillRequest.FillLineStep | blood/fill_request.py:41-60 | with units wanted and a non-empty buffer, one turn issues `min(units, wanted)` against the buffer's last row and continues with the rest of the buffer, without fetching |
| FillRequest.BufferConsumedFromEnd | blood/fill_request.py:40-60 | when the wanted units fit in the buffer, the line is filled without refetching; the k-th issue draws on the k-th row from the end, and every row but the last one drawn on is drained completely |
| FillRequest.FirstBatchConsumedFromEnd | blood/fill_request.py:40-60 | a line that the first batch covers is served from that batch alone, walking it from its last row |
| FillRequest.RowUnitsNonNegative | blood/fill_request.py:42-44 | the units of a set of view rows are never negative, and are positive when there is a row |
| FillRequest.FillLineSucceedsIffStock | blood/fill_request.py:36-60 | a line is filled exactly when the compatible stock covers it; when it falls short, the reported shortfall is the demand minus the whole compatible stock |
| FillRequest.FillLines | blood/fill_request.py:63-87 | MCI issues are each for the type of one of the lines and come from a compatible donation; nothing is over-issued; a full fill issues exactly the total demand; a shortfall is on one of the lines, is positive, and leaves that type's compatible view empty |
| FillRequest.FillLinesInOrder | blood/fill_request.py:64-74 | lines are taken strictly in order: a prefix is filled first, and the rest is attempted only when every line of the prefix was filled |
| FillRequest.CreateAndFillSingleRequest | blood/fill_request.py:14-23 | succeeds exactly when the compatible stock covers the units; on failure the store is unchanged and the error is `CanNotFulfill(type, units - stock)`; on success it returns the new request's id, appends exactly that request, and adds issues for it, from compatible donations, totalling the requested units, over-issuing nothing |
| FillRequest.CreateAndFillMciRequest | blood/fill_request.py:26-33 | on failure the store is unchanged; it fails with a distribution error exactly when the distribution cannot be resolved, never the abstract-class one; a shortfall names one of the resolved lines' types with a positive missing count; on success it appends exactly the new request and issues, from compatible donations, totalling the resolved demand |
| Scenarios.SingleRequestFromUniversalDonor | blood/fill_request.py:36-60 | a 5-unit O- donation serves an A+ patient needing 3 units with one 3-unit issue, leaving 2 units outstanding |
| Scenarios.SingleRequestShort | blood/fill_request.py:46-47 | a 2-unit AB- donation and an AB+ patient needing 5 units: rejected with 3 units missing and nothing stored |
| Scenarios.ABNegPatientRefusedANegBlood | blood/fill_request.py:36-47 | with only a 5-unit A- donation in stock, the application's table (blood/blood_types.py:19) rejects an AB- patient needing 1 unit with 1 unit missing and nothing stored; the corrected table serves the patient with one 1-unit issue |
| Scenarios.MciRequestRolledBack | blood/fill_request.py:63-74 | a 50/50 O+/A+ request for 3 units against 2 O+ units fills the O+ line, finds the A+ line short by 2 and rolls everything back |
| Patients.AllDigitsIff | blood/models.py:72 | the character scan accepts a string exactly when every character is a decimal digit |
| Patients.ValidId | blood/models.py:72-73 | an identity number is valid exactly when it has ten characters and each is a decimal digit |
| Patients.InitialData | blood/models.py:59-68 | the initial data has exactly the six field names as keys |
| Patients.InitialDataRoundTrip | blood/models.py:59-68 | the initial data carries the whole record: reading it back gives the record |
| Patients.Details | blood/models.py:70-80 | rejected, with the number in the error, exactly when the number is not ten digits; a known patient comes back with its record and initial data describing exactly that record; an unknown number gives an unsaved patient with that number and empty data |
| Patients.Update | blood/models.py:32-57 | the patient ends with the submitted values; it is saved exactly when some field differed; the store changes only by that save |
| Patients.UpdateIdempotent | blood/models.py:41-48 | submitting the same values again saves nothing and changes nothing |
| Patients.UpdateThenDetails | blood/models.py:49-80 | a patient loaded by the lookup and then updated is found by the next lookup with exactly the submitted values and their initial data |

## Left out

- The unmanaged SQL views `OutstandingDonations`, `OutstandingDonationsMCI` and `BloodRank` (blood/models.py:100-132). Their SQL is not part of this model. They are replaced by the derived view described above, which has:
  - no 30-day age limit;
  - no priority ranking;
  - the store's donation order as the row order.
- Persistence, and transactions beyond "a failed create-and-fill leaves the store as it was". Two requests racing for the same donation are a database concern and are not modelled.
- Float rounding in `ceil(float(total) * float(pct) / 100.0)` (blood/models.py:219). The model computes the exact rational ceiling, so binary floating-point edge cases are not covered.
- BloodTypes.DeriveCanReceive: its own contract states only that the fold keeps earlier entries. The exact content of the result is the separate lemma `DeriveCanReceiveInverts`, because a content contract on the fold itself would be instantiated on the two derived constants in every proof that mentions them.
- Distributions.RowsOf: the query at blood/models.py:218 has no ordering, so the database may return the rows in any order. The model uses catalog order in its place.
- Patients.ValidId: Python's `\d` also matches non-ASCII Unicode digits; the model accepts only `0`-`9`.
- The `Reject`/`RejectType` records (blood/models.py:270-287): nothing in the core creates them.
- HTTP views, URL routing, forms, the admin, and the polymorphic `IssueRequest` save. These are framework glue.
- The homepage exports and their audit trail, and the random test-data generator. Neither is part of the allocation core.
- Patient and percentage blood types are free text in the database. The allocation model takes them as `BloodType` values, because the form choices restrict them to the eight symbols. `Parse` relates the two.
- The `dist_type` field is not nullable, so a new object's tag is `""` and `save` fills it only when it is explicitly `None`. `Distribution.distType` is an `Option` to cover both.
- The second `None` test in `save` (blood/models.py:179-180) can never fire, because `distribution_type` either raises or returns "pop".
- `query_required` (blood/models.py:199-201) is never called. blood/models.py:204 tests the method object itself, which is always true, so the base class always reloads its leaf. Only that branch is modelled.
- The `__str__` methods, and `Donation.blood_type` read through the donor (blood/models.py:95-97): a donation's type is a field of the model's `Donation`.

## Findings

| source | as written | input that shows it | evidently intended | confidence | as-written member | corrected member |
|---|---|---|---|---|---|---|
| blood/blood_types.py:19 | `CAN_DONATE["A-"]` is `{A+, A-, AB+}`, so `CAN_RECEIVE["AB-"]` is `{O-, B-, AB-}` | an AB- patient needing A- blood, e.g. an inventory holding only A- donations, is rejected | A- gives to AB- as well, as B- does: the ABO/Rh antigen rule, which every other entry follows | medium; not executed | BloodTypes.ANegToABNegMissing | BloodTypes.CanDonateIsAntigenRule |

The application's entry points are the `FillRequest` members called with `AsWritten`, which read `BloodTypes.CanDonateAsWritten` through `CompatibleBloodTypes`. `Scenarios.ABNegPatientRefusedANegBlood` shows the consequence: an AB- patient is refused while only A- blood is in stock. The same members called with `Corrected` read the corrected table `BloodTypes.CanDonate`, which `CanDonateIsAntigenRule` proves is exactly the antigen rule.
