/** Patients: identity-number validation, the details lookup, the form's
    initial data and the change-only update. */
module Patients {
  import opened Results

  /** A calendar date, compared only for equality. */
  datatype Date = Date(year: int, month: int, day: int)

  /** The editable fields of a patient record. The blood type is the stored
      text; the form restricts it to the eight symbols. */
  datatype PatientData = PatientData(
    firstName: string,
    lastName: string,
    birthday: Date,
    bloodType: string,
    smokes: bool,
    phoneNumber: Option<string>)

  /** A patient object: its identity number and its fields. `data` is `None`
      for an object created for an unknown id and not yet saved, whose fields
      are still unset. */
  datatype Patient = Patient(id: string, data: Option<PatientData>)

  /** The stored patients, by identity number. */
  type Registry = map<string, PatientData>

  /** A value of the initial-data dictionary handed to the patient form. */
  datatype FieldValue = Text(text: string) | Day(date: Date) | Flag(flag: bool) | Null

  datatype InvalidPatientId = InvalidPatientId(patientId: string)

  const IdLength: nat := 10

  predicate IsDigit(c: char)
  {
    '0' <= c <= '9'
  }

  /** Scans a string, character by character, for a non-digit. */
  function AllDigits(s: string): bool
  {
    s == [] || (IsDigit(s[0]) && AllDigits(s[1..]))
  }

  lemma {:induction false} AllDigitsIff(s: string)
    ensures AllDigits(s) <==> forall i :: 0 <= i < |s| ==> IsDigit(s[i])
    decreases |s|
  {
    if s != [] {
      AllDigitsIff(s[1..]);
      assert forall i :: 1 <= i < |s| ==> s[i] == s[1..][i - 1];
    }
  }

  /** An identity number is exactly ten decimal digits. */
  function ValidId(s: string): (ok: bool)
    ensures ok <==> |s| == IdLength && forall i :: 0 <= i < |s| ==> IsDigit(s[i])
  {
    AllDigitsIff(s);
    |s| == IdLength && AllDigits(s)
  }

  /** The form's initial data: the six editable fields by name. */
  function InitialData(d: PatientData): (m: map<string, FieldValue>)
    ensures m.Keys == {"blood_type", "birthday", "first_name", "last_name", "smokes", "phone_number"}
  {
    map[
      "blood_type" := Text(d.bloodType),
      "birthday" := Day(d.birthday),
      "first_name" := Text(d.firstName),
      "last_name" := Text(d.lastName),
      "smokes" := Flag(d.smokes),
      "phone_number" := match d.phoneNumber case Some(p) => Text(p) case None => Null]
  }

  /** Reads a patient record back from a form's data, when every field is
      present with a value of the right kind. */
  function FromInitialData(m: map<string, FieldValue>): Option<PatientData>
  {
    if && "blood_type" in m && m["blood_type"].Text?
       && "birthday" in m && m["birthday"].Day?
       && "first_name" in m && m["first_name"].Text?
       && "last_name" in m && m["last_name"].Text?
       && "smokes" in m && m["smokes"].Flag?
       && "phone_number" in m && (m["phone_number"].Text? || m["phone_number"].Null?)
    then
      Some(PatientData(
        m["first_name"].text,
        m["last_name"].text,
        m["birthday"].date,
        m["blood_type"].text,
        m["smokes"].flag,
        if m["phone_number"].Text? then Some(m["phone_number"].text) else None))
    else None
  }

  /** The initial data carries the whole record: reading it back gives the record. */
  lemma InitialDataRoundTrip(d: PatientData)
    ensures FromInitialData(InitialData(d)) == Some(d)
  {
  }

  /** Looks up a patient by identity number: a malformed number is rejected;
      a known patient comes with its initial data; an unknown one is a new,
      unsaved patient object with empty initial data. Nothing is stored. */
  function Details(registry: Registry, idNumber: string): (r: Result<(Patient, map<string, FieldValue>), InvalidPatientId>)
    ensures r.Failure? <==> !ValidId(idNumber)
    ensures r.Failure? ==> r.error == InvalidPatientId(idNumber)
    ensures r.Success? ==> r.value.0.id == idNumber
    ensures r.Success? && idNumber in registry ==>
      r.value.0.data == Some(registry[idNumber]) && FromInitialData(r.value.1) == Some(registry[idNumber])
    ensures r.Success? && idNumber !in registry ==> r.value.0.data == None && r.value.1 == map[]
  {
    if !ValidId(idNumber) then Failure(InvalidPatientId(idNumber))
    else if idNumber in registry then
      InitialDataRoundTrip(registry[idNumber]);
      Success((Patient(idNumber, Some(registry[idNumber])), InitialData(registry[idNumber])))
    else Success((Patient(idNumber, None), map[]))
  }

  /** The result of an update: the patient object afterwards, and whether it
      was saved. */
  datatype Updated = Updated(patient: Patient, saved: bool, registry: Registry)

  /** Updates a patient with the form's values, saving only when some field
      differs. An unsaved patient always differs: its birthday is still unset. */
  function Update(registry: Registry, p: Patient, args: PatientData): (u: Updated)
    ensures u.patient == Patient(p.id, Some(args))
    ensures u.saved <==> p.data != Some(args)
    ensures u.saved ==> u.registry == registry[p.id := args]
    ensures !u.saved ==> u.registry == registry
  {
    match p.data
    case Some(d) =>
      if d == args then Updated(p, false, registry)
      else Updated(Patient(p.id, Some(args)), true, registry[p.id := args])
    case None => Updated(Patient(p.id, Some(args)), true, registry[p.id := args])
  }

  /** Submitting the same values twice saves at most once. */
  lemma UpdateIdempotent(registry: Registry, p: Patient, args: PatientData)
    ensures var u := Update(registry, p, args);
      var v := Update(u.registry, u.patient, args);
      !v.saved && v.patient == u.patient && v.registry == u.registry
  {
  }

  /** A patient loaded by `Details` and then updated is found by the next
      lookup with exactly the submitted values. */
  lemma UpdateThenDetails(registry: Registry, idNumber: string, args: PatientData)
    requires Details(registry, idNumber).Success?
    ensures var u := Update(registry, Details(registry, idNumber).value.0, args);
      Details(u.registry, idNumber) == Success((Patient(idNumber, Some(args)), InitialData(args)))
  {
  }
}
