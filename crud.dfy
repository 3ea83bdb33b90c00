/** The data-access layer. The store's tables are one value, `Tables`; the
    invariant `Valid` is what the declared keys, unique columns and foreign
    keys guarantee of them. Each read-only query is a function of the tables.
    Each operation that writes is a function from the tables before the call
    to an `Outcome`: the tables after it (a commit is the state after its
    step; a rollback undoes only what was not yet committed) and what the
    call returns or raises. */
module Crud {
  import opened Models
  import opened Exceptions
  import opened Schemas
  import opened Listing

  datatype Tables = Tables(
    persons: map<Uuid, Person>,
    conditions: map<Uuid, MedicalCondition>,
    patients: map<Uuid, Patient>,
    calls: map<Uuid, CallHistory>,
    physicians: map<Uuid, Physician>)

  datatype Outcome<T> = Outcome(after: Tables, result: Result<T>)

  // ----- The store invariant ------------------------------------------------

  /** Each table's invariant is stated on that table's maps alone, so a
      write to one table leaves the other tables' parts untouched. */

  predicate PersonsKeyed(persons: map<Uuid, Person>) {
    forall k :: k in persons ==> persons[k].personId == k
  }

  predicate ConditionsKeyed(conditions: map<Uuid, MedicalCondition>) {
    forall k :: k in conditions ==> conditions[k].medicalConditionId == k
  }

  predicate PatientsKeyed(patients: map<Uuid, Patient>) {
    forall k :: k in patients ==> patients[k].patientId == k
  }

  predicate CallsKeyed(calls: map<Uuid, CallHistory>) {
    forall k :: k in calls ==> calls[k].callId == k
  }

  predicate PhysiciansKeyed(physicians: map<Uuid, Physician>) {
    forall k :: k in physicians ==> physicians[k].physicianId == k
  }

  /** Every row is stored under its own primary key. */
  predicate KeyedById(t: Tables) {
    && PersonsKeyed(t.persons)
    && ConditionsKeyed(t.conditions)
    && PatientsKeyed(t.patients)
    && CallsKeyed(t.calls)
    && PhysiciansKeyed(t.physicians)
  }

  /** person.email, medical_condition.name, patient.person_id and
      physician.person_id are unique. */
  predicate UniqueColumns(t: Tables) {
    && Unique(t.persons, PersonEmail)
    && Unique(t.conditions, ConditionName)
    && Unique(t.patients, PatientPerson)
    && Unique(t.physicians, PhysicianPerson)
  }

  /** patient.person_id and patient.medical_condition_id name existing rows. */
  predicate PatientsResolve(patients: map<Uuid, Patient>, persons: map<Uuid, Person>,
                            conditions: map<Uuid, MedicalCondition>) {
    && (forall k :: k in patients ==> patients[k].personId in persons)
    && (forall k :: k in patients ==> patients[k].medicalConditionId in conditions)
  }

  /** call_history.patient_id and, when set, call_history.pn_id name existing rows. */
  predicate CallsResolve(calls: map<Uuid, CallHistory>, patients: map<Uuid, Patient>, persons: map<Uuid, Person>) {
    && (forall k :: k in calls ==> calls[k].patientId in patients)
    && (forall k :: k in calls && calls[k].pnId.Some? ==> calls[k].pnId.value in persons)
  }

  /** physician.person_id names an existing row. */
  predicate PhysiciansResolve(physicians: map<Uuid, Physician>, persons: map<Uuid, Person>) {
    forall k :: k in physicians ==> physicians[k].personId in persons
  }

  /** Every foreign key names an existing row. */
  predicate ReferencesResolve(t: Tables) {
    && PatientsResolve(t.patients, t.persons, t.conditions)
    && CallsResolve(t.calls, t.patients, t.persons)
    && PhysiciansResolve(t.physicians, t.persons)
  }

  /** An optional integer the 32-bit INTEGER column can hold. */
  predicate FitsInteger(v: Option<int>) {
    v.None? || v.value <= MaxInteger
  }

  /** Every stored call_history.call_duration_minutes fits its INTEGER column. */
  predicate ColumnsInRange(t: Tables) {
    forall k :: k in t.calls ==> FitsInteger(t.calls[k].callDurationMinutes)
  }

  predicate Valid(t: Tables) {
    KeyedById(t) && UniqueColumns(t) && ReferencesResolve(t) && ColumnsInRange(t)
  }

  const EmptyTables := Tables(map[], map[], map[], map[], map[])

  /** What a valid store guarantees, column by column: at most one person per
      email, one condition per name, one patient and one physician per
      person, and every required reference names an existing row. */
  lemma ValidEnforcesDeclarations(t: Tables, email: string, name: string, personId: Uuid)
    requires Valid(t)
    ensures |set k | k in t.persons && t.persons[k].email == email| <= 1
    ensures |set k | k in t.conditions && t.conditions[k].name == name| <= 1
    ensures |set k | k in t.patients && t.patients[k].personId == personId| <= 1
    ensures |set k | k in t.physicians && t.physicians[k].personId == personId| <= 1
    ensures forall k :: k in t.patients ==>
              t.patients[k].personId in t.persons && t.patients[k].medicalConditionId in t.conditions
    ensures forall k :: k in t.calls ==> t.calls[k].patientId in t.patients
  {
    AtMostOnePersonPerEmail(t.persons, email);
    AtMostOneConditionPerName(t.conditions, name);
    AtMostOnePatientPerPerson(t.patients, personId);
    AtMostOnePhysicianPerPerson(t.physicians, personId);
  }

  // ----- Lookups --------------------------------------------------------------

  function GetPerson(t: Tables, id: Uuid): (r: Option<Person>)
    requires Valid(t)
    ensures r.Some? <==> id in t.persons
    ensures r.Some? ==> r.value.personId == id && r.value in t.persons.Values
  {
    if id in t.persons then Some(t.persons[id]) else None
  }

  predicate EmailTaken(t: Tables, email: string) {
    exists k :: k in t.persons && t.persons[k].email == email
  }

  function GetPersonByEmail(t: Tables, email: string): (r: Option<Person>)
    requires Valid(t)
    ensures r.Some? <==> EmailTaken(t, email)
    ensures r.Some? ==> r.value.email == email && r.value.personId in t.persons
                        && t.persons[r.value.personId] == r.value
  {
    if EmailTaken(t, email) then
      var k :| k in t.persons && t.persons[k].email == email;
      Some(t.persons[k])
    else None
  }

  function GetMedicalCondition(t: Tables, id: Uuid): (r: Option<MedicalCondition>)
    requires Valid(t)
    ensures r.Some? <==> id in t.conditions
    ensures r.Some? ==> r.value.medicalConditionId == id && r.value in t.conditions.Values
  {
    if id in t.conditions then Some(t.conditions[id]) else None
  }

  function GetPatient(t: Tables, id: Uuid): (r: Option<Patient>)
    requires Valid(t)
    ensures r.Some? <==> id in t.patients
    ensures r.Some? ==> r.value.patientId == id && r.value in t.patients.Values
  {
    if id in t.patients then Some(t.patients[id]) else None
  }

  predicate HasPatient(t: Tables, personId: Uuid) {
    exists k :: k in t.patients && t.patients[k].personId == personId
  }

  function GetPatientByPersonId(t: Tables, personId: Uuid): (r: Option<Patient>)
    requires Valid(t)
    ensures r.Some? <==> HasPatient(t, personId)
    ensures r.Some? ==> r.value.personId == personId && r.value.patientId in t.patients
                        && t.patients[r.value.patientId] == r.value
  {
    if HasPatient(t, personId) then
      var k :| k in t.patients && t.patients[k].personId == personId;
      Some(t.patients[k])
    else None
  }

  function GetCallHistory(t: Tables, id: Uuid): (r: Option<CallHistory>)
    requires Valid(t)
    ensures r.Some? <==> id in t.calls
    ensures r.Some? ==> r.value.callId == id && r.value in t.calls.Values
  {
    if id in t.calls then Some(t.calls[id]) else None
  }

  // ----- Listings -------------------------------------------------------------

  /** The optional `is_active` filter of the person listing. */
  function PersonFilter(isActive: Option<bool>): (keep: Person -> bool)
    ensures forall p :: keep(p) == (isActive.None? || p.isActive == isActive.value)
  {
    (p: Person) => isActive.None? || p.isActive == isActive.value
  }

  /** The optional `is_active` filter of the condition listing. */
  function MedicalConditionFilter(isActive: Option<bool>): (keep: MedicalCondition -> bool)
    ensures forall c :: keep(c) == (isActive.None? || c.isActive == isActive.value)
  {
    (c: MedicalCondition) => isActive.None? || c.isActive == isActive.value
  }

  /** `get_persons`: one page (OFFSET `skip` LIMIT `limit`) of the persons
      passing the `is_active` filter, in the order the store scans them. */
  function GetPersons(t: Tables, scan: seq<Uuid>, skip: nat, limit: nat, isActive: Option<bool>): (r: seq<Person>)
    requires IsScan(scan, t.persons)
    ensures |r| == WindowLength(|set k | k in t.persons && (isActive.None? || t.persons[k].isActive == isActive.value)|,
                                skip, limit)
    ensures var matches := Select(t.persons, scan, PersonFilter(isActive));
      forall i :: 0 <= i < |r| ==> skip + i < |matches| && r[i] == matches[skip + i]
    ensures |r| <= limit
    ensures forall p :: p in r ==> p in t.persons.Values && (isActive.Some? ==> p.isActive == isActive.value)
  {
    var keep := PersonFilter(isActive);
    SelectCountsMatches(t.persons, scan, keep);
    assert MatchingKeys(t.persons, keep)
        == set k | k in t.persons && (isActive.None? || t.persons[k].isActive == isActive.value);
    Window(Select(t.persons, scan, keep), skip, limit)
  }

  /** `get_medical_conditions`: the same shape over the conditions. */
  function GetMedicalConditions(t: Tables, scan: seq<Uuid>, skip: nat, limit: nat, isActive: Option<bool>)
    : (r: seq<MedicalCondition>)
    requires IsScan(scan, t.conditions)
    ensures |r| == WindowLength(|set k | k in t.conditions && (isActive.None? || t.conditions[k].isActive == isActive.value)|,
                                skip, limit)
    ensures var matches := Select(t.conditions, scan, MedicalConditionFilter(isActive));
      forall i :: 0 <= i < |r| ==> skip + i < |matches| && r[i] == matches[skip + i]
    ensures |r| <= limit
    ensures forall c :: c in r ==> c in t.conditions.Values && (isActive.Some? ==> c.isActive == isActive.value)
  {
    var keep := MedicalConditionFilter(isActive);
    SelectCountsMatches(t.conditions, scan, keep);
    assert MatchingKeys(t.conditions, keep)
        == set k | k in t.conditions && (isActive.None? || t.conditions[k].isActive == isActive.value);
    Window(Select(t.conditions, scan, keep), skip, limit)
  }

  /** Without an `is_active` filter the person listing is the page of all
      persons, in scan order. */
  lemma UnfilteredPersons(t: Tables, scan: seq<Uuid>, skip: nat, limit: nat)
    requires IsScan(scan, t.persons)
    ensures var r := GetPersons(t, scan, skip, limit, None);
      && |r| == WindowLength(|t.persons|, skip, limit)
      && forall i :: 0 <= i < |r| ==> skip + i < |scan| && r[i] == t.persons[scan[skip + i]]
  {
    var keep := PersonFilter(None);
    SelectAll(t.persons, scan, keep);
    SelectCountsMatches(t.persons, scan, keep);
    assert MatchingKeys(t.persons, keep) == t.persons.Keys;
  }

  /** Without an `is_active` filter the condition listing is the page of all
      conditions, in scan order. */
  lemma UnfilteredMedicalConditions(t: Tables, scan: seq<Uuid>, skip: nat, limit: nat)
    requires IsScan(scan, t.conditions)
    ensures var r := GetMedicalConditions(t, scan, skip, limit, None);
      && |r| == WindowLength(|t.conditions|, skip, limit)
      && forall i :: 0 <= i < |r| ==> skip + i < |scan| && r[i] == t.conditions[scan[skip + i]]
  {
    var keep := MedicalConditionFilter(None);
    SelectAll(t.conditions, scan, keep);
    SelectCountsMatches(t.conditions, scan, keep);
    assert MatchingKeys(t.conditions, keep) == t.conditions.Keys;
  }

  /** The filters of `get_patients`: status only when it is non-empty,
      condition only when an id is given. */
  predicate PatientMatches(p: Patient, status: Option<string>, medicalConditionId: Option<Uuid>) {
    && (Truthy(status) ==> p.status == status.value)
    && (medicalConditionId.Some? ==> p.medicalConditionId == medicalConditionId.value)
  }

  function PatientFilter(status: Option<string>, medicalConditionId: Option<Uuid>): (keep: Patient -> bool)
    ensures forall p :: keep(p) == PatientMatches(p, status, medicalConditionId)
  {
    (p: Patient) => PatientMatches(p, status, medicalConditionId)
  }

  /** `get_patients`: one page of the matching patients, and the number of
      all matching patients (the count ignores the paging). */
  function GetPatients(t: Tables, scan: seq<Uuid>, skip: nat, limit: nat,
                       status: Option<string>, medicalConditionId: Option<Uuid>): (r: (seq<Patient>, nat))
    requires IsScan(scan, t.patients)
    ensures r.1 == |set k | k in t.patients && PatientMatches(t.patients[k], status, medicalConditionId)|
    ensures |r.0| == WindowLength(r.1, skip, limit)
    ensures var matches := Select(t.patients, scan, PatientFilter(status, medicalConditionId));
      forall i :: 0 <= i < |r.0| ==> skip + i < |matches| && r.0[i] == matches[skip + i]
    ensures |r.0| <= limit
    ensures forall p :: p in r.0 ==> p in t.patients.Values && PatientMatches(p, status, medicalConditionId)
  {
    var keep := PatientFilter(status, medicalConditionId);
    var matches := Select(t.patients, scan, keep);
    SelectCountsMatches(t.patients, scan, keep);
    assert MatchingKeys(t.patients, keep)
        == set k | k in t.patients && PatientMatches(t.patients[k], status, medicalConditionId);
    (Window(matches, skip, limit), |matches|)
  }

  /** Each filter of `get_patients` applies only when given: an empty status
      lists as no status, and with neither filter every patient is counted
      and listed in scan order. */
  lemma PatientFiltersApplyOnlyWhenGiven(t: Tables, scan: seq<Uuid>, skip: nat, limit: nat,
                                         medicalConditionId: Option<Uuid>)
    requires IsScan(scan, t.patients)
    ensures GetPatients(t, scan, skip, limit, Some(""), medicalConditionId)
            == GetPatients(t, scan, skip, limit, None, medicalConditionId)
    ensures var r := GetPatients(t, scan, skip, limit, None, None);
      && r.1 == |t.patients|
      && forall i :: 0 <= i < |r.0| ==> skip + i < |scan| && r.0[i] == t.patients[scan[skip + i]]
  {
    SelectSameFilter(t.patients, scan, PatientFilter(Some(""), medicalConditionId),
                     PatientFilter(None, medicalConditionId));
    var keep := PatientFilter(None, None);
    SelectAll(t.patients, scan, keep);
    assert (set k | k in t.patients && PatientMatches(t.patients[k], None, None)) == t.patients.Keys;
  }

  function CallFilter(patientId: Uuid): (keep: CallHistory -> bool)
    ensures forall c :: keep(c) == (c.patientId == patientId)
  {
    (c: CallHistory) => c.patientId == patientId
  }

  lemma SortedFromMatches(matches: seq<CallHistory>, ordered: seq<CallHistory>, page: seq<CallHistory>)
    requires multiset(ordered) == multiset(matches)
    requires forall c :: c in page ==> c in ordered
    ensures forall c :: c in page ==> c in matches
  {
    forall c | c in page ensures c in matches {
      assert c in multiset(ordered);
    }
  }

  /** `get_call_histories_by_patient`: one page of the patient's calls,
      latest call first and undated calls last, and the number of all of
      them (the count ignores the paging). */
  function GetCallHistoriesByPatient(t: Tables, scan: seq<Uuid>, patientId: Uuid, skip: nat, limit: nat)
    : (r: (seq<CallHistory>, nat))
    requires IsScan(scan, t.calls)
    ensures r.1 == |set k | k in t.calls && t.calls[k].patientId == patientId|
    ensures |r.0| == WindowLength(r.1, skip, limit)
    ensures var ordered := SortByCallDate(Select(t.calls, scan, CallFilter(patientId)));
      forall i :: 0 <= i < |r.0| ==> skip + i < |ordered| && r.0[i] == ordered[skip + i]
    ensures |r.0| <= limit
    ensures OrderedByCallDate(r.0)
    ensures forall c :: c in r.0 ==> c.patientId == patientId && c in t.calls.Values
  {
    var keep := CallFilter(patientId);
    var matches := Select(t.calls, scan, keep);
    var ordered := SortByCallDate(matches);
    var page := Window(ordered, skip, limit);
    SelectCountsMatches(t.calls, scan, keep);
    assert MatchingKeys(t.calls, keep) == set k | k in t.calls && t.calls[k].patientId == patientId;
    assert |ordered| == |matches| by {
      assert |multiset(ordered)| == |multiset(matches)|;
    }
    WindowKeepsOrder(ordered, skip, limit);
    SortedFromMatches(matches, ordered, page);
    (page, |ordered|)
  }

  // ----- Partial updates --------------------------------------------------------

  /** The `setattr` loop: the set fields written one after the other. */
  function ApplyItems<R, F>(row: R, items: seq<F>, assign: (R, F) -> R): R {
    if items == [] then row
    else ApplyItems(assign(row, items[0]), items[1..], assign)
  }

  /** Writing `head + rest`, where `head` is one field or none: first the head, then the rest. */
  lemma ApplyMaybeThen<R, F>(row: R, head: seq<F>, rest: seq<F>, assign: (R, F) -> R)
    requires |head| <= 1
    ensures ApplyItems(row, head + rest, assign)
            == ApplyItems(if head == [] then row else assign(row, head[0]), rest, assign)
  {
    if head == [] {
      assert head + rest == rest;
    } else {
      assert (head + rest)[0] == head[0];
      assert (head + rest)[1..] == rest;
    }
  }

  /** The loop over the filled slots: each filled slot's field written in turn. */
  function WriteSlots<R, F>(row: R, slots: seq<Option<F>>, assign: (R, F) -> R): R {
    if slots == [] then row
    else WriteSlots(if slots[0].Some? then assign(row, slots[0].value) else row, slots[1..], assign)
  }

  lemma {:induction false} ApplyPresent<R, F>(row: R, slots: seq<Option<F>>, assign: (R, F) -> R)
    ensures ApplyItems(row, Present(slots), assign) == WriteSlots(row, slots, assign)
  {
    if slots != [] {
      var head := if slots[0].Some? then [slots[0].value] else [];
      ApplyMaybeThen(row, head, Present(slots[1..]), assign);
      ApplyPresent(if slots[0].Some? then assign(row, slots[0].value) else row, slots[1..], assign);
    }
  }

  function SetPersonField(p: Person, f: PersonField): Person {
    match f
    case SetFirstName(v) => p.(firstName := v)
    case SetLastName(v) => p.(lastName := v)
    case SetEmail(v) => p.(email := v)
    case SetPhone(v) => p.(phone := v)
    case SetPersonActive(v) => p.(isActive := v)
  }

  function UpdatedPerson(p: Person, u: PersonUpdate): Person {
    ApplyItems(p, PersonUpdateItems(u), SetPersonField)
  }

  /** The loop writes exactly the fields that were set; every other field,
      and the primary key, keep their values. */
  lemma {:induction false} PersonUpdateWritesOnlySetFields(p: Person, u: PersonUpdate)
    ensures UpdatedPerson(p, u) == p.(
      firstName := if u.firstName.Some? then u.firstName.value else p.firstName,
      lastName := if u.lastName.Some? then u.lastName.value else p.lastName,
      email := if u.email.Some? then u.email.value else p.email,
      phone := if u.phone.Some? then u.phone.value else p.phone,
      isActive := if u.isActive.Some? then u.isActive.value else p.isActive)
  {
    var slots := PersonUpdateSlots(u);
    ApplyPresent(p, slots, SetPersonField);
    var r1 := if u.firstName.Some? then p.(firstName := u.firstName.value) else p;
    var r2 := if u.lastName.Some? then r1.(lastName := u.lastName.value) else r1;
    var r3 := if u.email.Some? then r2.(email := u.email.value) else r2;
    var r4 := if u.phone.Some? then r3.(phone := u.phone.value) else r3;
    var r5 := if u.isActive.Some? then r4.(isActive := u.isActive.value) else r4;
    assert WriteSlots(p, slots, SetPersonField) == WriteSlots(r1, slots[1..], SetPersonField);
    assert WriteSlots(r1, slots[1..], SetPersonField) == WriteSlots(r2, slots[2..], SetPersonField);
    assert WriteSlots(r2, slots[2..], SetPersonField) == WriteSlots(r3, slots[3..], SetPersonField);
    assert WriteSlots(r3, slots[3..], SetPersonField) == WriteSlots(r4, slots[4..], SetPersonField);
    assert WriteSlots(r4, slots[4..], SetPersonField) == WriteSlots(r5, slots[5..], SetPersonField);
  }

  function SetMedicalConditionField(c: MedicalCondition, f: MedicalConditionField): MedicalCondition {
    match f
    case SetName(v) => c.(name := v)
    case SetAbbreviation(v) => c.(abbreviation := v)
    case SetDescription(v) => c.(description := v)
    case SetConditionActive(v) => c.(isActive := v)
  }

  function UpdatedMedicalCondition(c: MedicalCondition, u: MedicalConditionUpdate): MedicalCondition {
    ApplyItems(c, MedicalConditionUpdateItems(u), SetMedicalConditionField)
  }

  lemma {:induction false} MedicalConditionUpdateWritesOnlySetFields(c: MedicalCondition, u: MedicalConditionUpdate)
    ensures UpdatedMedicalCondition(c, u) == c.(
      name := if u.name.Some? then u.name.value else c.name,
      abbreviation := if u.abbreviation.Some? then u.abbreviation.value else c.abbreviation,
      description := if u.description.Some? then u.description.value else c.description,
      isActive := if u.isActive.Some? then u.isActive.value else c.isActive)
  {
    var slots := MedicalConditionUpdateSlots(u);
    ApplyPresent(c, slots, SetMedicalConditionField);
    var r1 := if u.name.Some? then c.(name := u.name.value) else c;
    var r2 := if u.abbreviation.Some? then r1.(abbreviation := u.abbreviation.value) else r1;
    var r3 := if u.description.Some? then r2.(description := u.description.value) else r2;
    var r4 := if u.isActive.Some? then r3.(isActive := u.isActive.value) else r3;
    assert WriteSlots(c, slots, SetMedicalConditionField) == WriteSlots(r1, slots[1..], SetMedicalConditionField);
    assert WriteSlots(r1, slots[1..], SetMedicalConditionField) == WriteSlots(r2, slots[2..], SetMedicalConditionField);
    assert WriteSlots(r2, slots[2..], SetMedicalConditionField) == WriteSlots(r3, slots[3..], SetMedicalConditionField);
    assert WriteSlots(r3, slots[3..], SetMedicalConditionField) == WriteSlots(r4, slots[4..], SetMedicalConditionField);
  }

  function SetPatientField(p: Patient, f: PatientField): Patient {
    match f
    case SetMedicalCondition(v) => p.(medicalConditionId := v)
    case SetFirstContactDate(v) => p.(firstContactDate := v)
    case SetInitialConsultDate(v) => p.(initialConsultDate := v)
    case SetStatus(v) => p.(status := v)
  }

  function UpdatedPatient(p: Patient, u: PatientUpdate): Patient {
    ApplyItems(p, PatientUpdateItems(u), SetPatientField)
  }

  lemma {:induction false} PatientUpdateWritesOnlySetFields(p: Patient, u: PatientUpdate)
    ensures UpdatedPatient(p, u) == p.(
      medicalConditionId := if u.medicalConditionId.Some? then u.medicalConditionId.value else p.medicalConditionId,
      firstContactDate := if u.firstContactDate.Some? then u.firstContactDate.value else p.firstContactDate,
      initialConsultDate := if u.initialConsultDate.Some? then u.initialConsultDate.value else p.initialConsultDate,
      status := if u.status.Some? then u.status.value else p.status)
  {
    var slots := PatientUpdateSlots(u);
    ApplyPresent(p, slots, SetPatientField);
    var r1 := if u.medicalConditionId.Some? then p.(medicalConditionId := u.medicalConditionId.value) else p;
    var r2 := if u.firstContactDate.Some? then r1.(firstContactDate := u.firstContactDate.value) else r1;
    var r3 := if u.initialConsultDate.Some? then r2.(initialConsultDate := u.initialConsultDate.value) else r2;
    var r4 := if u.status.Some? then r3.(status := u.status.value) else r3;
    assert WriteSlots(p, slots, SetPatientField) == WriteSlots(r1, slots[1..], SetPatientField);
    assert WriteSlots(r1, slots[1..], SetPatientField) == WriteSlots(r2, slots[2..], SetPatientField);
    assert WriteSlots(r2, slots[2..], SetPatientField) == WriteSlots(r3, slots[3..], SetPatientField);
    assert WriteSlots(r3, slots[3..], SetPatientField) == WriteSlots(r4, slots[4..], SetPatientField);
  }

  /** A requested duration as the integer column stores it. */
  function DurationMinutes(v: Option<nat>): Option<int> {
    if v.Some? then Some(v.value as int) else None
  }

  function SetCallHistoryField(c: CallHistory, f: CallHistoryField): CallHistory {
    match f
    case SetNavigator(v) => c.(pnId := v)
    case SetBookingDate(v) => c.(bookingDate := v)
    case SetCallDate(v) => c.(callDate := v)
    case SetReminderDate(v) => c.(reminderDate := v)
    case SetNoShow(v) => c.(noShow := v)
    case SetCallDuration(v) => c.(callDurationMinutes := DurationMinutes(v))
    case SetOutcome(v) => c.(outcome := v)
    case SetNotes(v) => c.(notes := v)
  }

  function UpdatedCallHistory(c: CallHistory, u: CallHistoryUpdate): CallHistory {
    ApplyItems(c, CallHistoryUpdateItems(u), SetCallHistoryField)
  }

  lemma {:induction false} WriteSlotsAppend<R, F>(row: R, a: seq<Option<F>>, b: seq<Option<F>>, assign: (R, F) -> R)
    ensures WriteSlots(row, a + b, assign) == WriteSlots(WriteSlots(row, a, assign), b, assign)
  {
    if a == [] {
      assert a + b == b;
    } else {
      assert (a + b)[0] == a[0];
      assert (a + b)[1..] == a[1..] + b;
      WriteSlotsAppend(if a[0].Some? then assign(row, a[0].value) else row, a[1..], b, assign);
    }
  }

  /** The slots of the navigator and the three dates write only those fields. */
  lemma CallHistoryScheduleSlots(c: CallHistory, u: CallHistoryUpdate)
    ensures WriteSlots(c, CallScheduleSlots(u), SetCallHistoryField) == c.(
      pnId := if u.pnId.Some? then u.pnId.value else c.pnId,
      bookingDate := if u.bookingDate.Some? then u.bookingDate.value else c.bookingDate,
      callDate := if u.callDate.Some? then u.callDate.value else c.callDate,
      reminderDate := if u.reminderDate.Some? then u.reminderDate.value else c.reminderDate)
  {
    var slots := CallScheduleSlots(u);
    var r1 := if u.pnId.Some? then c.(pnId := u.pnId.value) else c;
    var r2 := if u.bookingDate.Some? then r1.(bookingDate := u.bookingDate.value) else r1;
    var r3 := if u.callDate.Some? then r2.(callDate := u.callDate.value) else r2;
    var r4 := if u.reminderDate.Some? then r3.(reminderDate := u.reminderDate.value) else r3;
    assert WriteSlots(c, slots, SetCallHistoryField) == WriteSlots(r1, slots[1..], SetCallHistoryField);
    assert WriteSlots(r1, slots[1..], SetCallHistoryField) == WriteSlots(r2, slots[2..], SetCallHistoryField);
    assert WriteSlots(r2, slots[2..], SetCallHistoryField) == WriteSlots(r3, slots[3..], SetCallHistoryField);
    assert WriteSlots(r3, slots[3..], SetCallHistoryField) == WriteSlots(r4, slots[4..], SetCallHistoryField);
  }

  /** The slots of the no-show flag, duration, outcome and notes write only those fields. */
  lemma CallHistoryOutcomeSlots(c: CallHistory, u: CallHistoryUpdate)
    ensures WriteSlots(c, CallOutcomeSlots(u), SetCallHistoryField) == c.(
      noShow := if u.noShow.Some? then u.noShow.value else c.noShow,
      callDurationMinutes := if u.callDurationMinutes.Some? then DurationMinutes(u.callDurationMinutes.value)
                             else c.callDurationMinutes,
      outcome := if u.outcome.Some? then u.outcome.value else c.outcome,
      notes := if u.notes.Some? then u.notes.value else c.notes)
  {
    var slots := CallOutcomeSlots(u);
    var r1 := if u.noShow.Some? then c.(noShow := u.noShow.value) else c;
    var r2 := if u.callDurationMinutes.Some? then r1.(callDurationMinutes := DurationMinutes(u.callDurationMinutes.value)) else r1;
    var r3 := if u.outcome.Some? then r2.(outcome := u.outcome.value) else r2;
    var r4 := if u.notes.Some? then r3.(notes := u.notes.value) else r3;
    assert WriteSlots(c, slots, SetCallHistoryField) == WriteSlots(r1, slots[1..], SetCallHistoryField);
    assert WriteSlots(r1, slots[1..], SetCallHistoryField) == WriteSlots(r2, slots[2..], SetCallHistoryField);
    assert WriteSlots(r2, slots[2..], SetCallHistoryField) == WriteSlots(r3, slots[3..], SetCallHistoryField);
    assert WriteSlots(r3, slots[3..], SetCallHistoryField) == WriteSlots(r4, slots[4..], SetCallHistoryField);
  }

  lemma {:induction false} CallHistoryUpdateWritesOnlySetFields(c: CallHistory, u: CallHistoryUpdate)
    ensures UpdatedCallHistory(c, u) == c.(
      pnId := if u.pnId.Some? then u.pnId.value else c.pnId,
      bookingDate := if u.bookingDate.Some? then u.bookingDate.value else c.bookingDate,
      callDate := if u.callDate.Some? then u.callDate.value else c.callDate,
      reminderDate := if u.reminderDate.Some? then u.reminderDate.value else c.reminderDate,
      noShow := if u.noShow.Some? then u.noShow.value else c.noShow,
      callDurationMinutes := if u.callDurationMinutes.Some? then DurationMinutes(u.callDurationMinutes.value)
                             else c.callDurationMinutes,
      outcome := if u.outcome.Some? then u.outcome.value else c.outcome,
      notes := if u.notes.Some? then u.notes.value else c.notes)
  {
    var slots := CallHistoryUpdateSlots(u);
    ApplyPresent(c, slots, SetCallHistoryField);
    WriteSlotsAppend(c, CallScheduleSlots(u), CallOutcomeSlots(u), SetCallHistoryField);
    CallHistoryScheduleSlots(c, u);
    CallHistoryOutcomeSlots(WriteSlots(c, CallScheduleSlots(u), SetCallHistoryField), u);
  }

  // ----- Persons ------------------------------------------------------------------

  const PersonEmailColumn := "person.email"
  const DuplicatePersonMessage := "Failed to create person: duplicate email or constraint violation"

  /** The row `create_person` adds: the request's fields, active by default. */
  function NewPerson(id: Uuid, p: PersonCreate): (r: Person)
    ensures r.personId == id && r.isActive
    ensures r.firstName == p.firstName && r.lastName == p.lastName && r.email == p.email && r.phone == p.phone
  {
    Person(id, p.firstName, p.lastName, p.email, p.phone, true)
  }

  /** `create_person`: a fresh row, or the wrapped constraint violation when
      the email is taken (nothing is written then). */
  function CreatePerson(t: Tables, id: Uuid, p: PersonCreate): (o: Outcome<Person>)
    requires Valid(t)
    requires id !in t.persons
    ensures Valid(o.after)
    ensures o.after.(persons := t.persons) == t
    ensures EmailTaken(t, p.email) <==> o.result.Failure?
    ensures o.result.Failure? ==> (o.after == t
      && o.result.error == DatabaseError(DuplicatePersonMessage, Some(IntegrityError(PersonEmailColumn))))
    ensures o.result.Success? ==> (o.result.value == NewPerson(id, p)
      && o.after.persons == t.persons[id := NewPerson(id, p)])
  {
    if EmailTaken(t, p.email) then
      Outcome(t, Failure(DatabaseError(DuplicatePersonMessage, Some(IntegrityError(PersonEmailColumn)))))
    else
      var row := NewPerson(id, p);
      UniqueAfterPut(t.persons, id, row, PersonEmail);
      Outcome(t.(persons := t.persons[id := row]), Success(row))
  }

  /** Another row than `id` holds `email`. */
  predicate EmailHeldByOther(t: Tables, id: Uuid, email: string) {
    exists k :: k in t.persons && k != id && t.persons[k].email == email
  }

  /** `update_person`: `None` for an unknown id; otherwise the set fields are
      written, and an email that another person holds violates the unique
      column (the commit fails and nothing is written). */
  function UpdatePerson(t: Tables, id: Uuid, u: PersonUpdate): (o: Outcome<Option<Person>>)
    requires Valid(t)
    ensures Valid(o.after)
    ensures o.after.(persons := t.persons) == t
    ensures id !in t.persons ==> o == Outcome(t, Success(None))
    ensures id in t.persons ==>
      var q := UpdatedPerson(t.persons[id], u);
      if EmailHeldByOther(t, id, q.email) then o == Outcome(t, Failure(IntegrityError(PersonEmailColumn)))
      else o.result == Success(Some(q)) && o.after.persons == t.persons[id := q]
  {
    if id !in t.persons then Outcome(t, Success(None))
    else
      var q := UpdatedPerson(t.persons[id], u);
      if EmailHeldByOther(t, id, q.email) then Outcome(t, Failure(IntegrityError(PersonEmailColumn)))
      else
        PersonUpdateWritesOnlySetFields(t.persons[id], u);
        UniqueAfterPut(t.persons, id, q, PersonEmail);
        Outcome(t.(persons := t.persons[id := q]), Success(Some(q)))
  }

  /** `delete_person`: a soft delete. */
  function DeletePerson(t: Tables, id: Uuid): (o: Outcome<bool>)
    requires Valid(t)
    ensures Valid(o.after)
    ensures o.after.(persons := t.persons) == t
    ensures o.result == Success(id in t.persons)
    ensures id !in t.persons ==> o.after == t
    ensures id in t.persons ==> o.after.persons == t.persons[id := t.persons[id].(isActive := false)]
  {
    if id !in t.persons then Outcome(t, Success(false))
    else
      var row := t.persons[id].(isActive := false);
      UniqueAfterPut(t.persons, id, row, PersonEmail);
      Outcome(t.(persons := t.persons[id := row]), Success(true))
  }

  // ----- Medical conditions ---------------------------------------------------------

  const ConditionNameColumn := "medical_condition.name"
  const DuplicateConditionOnCreateMessage := "Failed to create medical condition: duplicate name or constraint violation"
  const DuplicateConditionOnUpdateMessage := "Failed to update medical condition: duplicate name or constraint violation"

  function NewMedicalCondition(id: Uuid, c: MedicalConditionCreate): (r: MedicalCondition)
    ensures r.medicalConditionId == id && r.isActive
    ensures r.name == c.name && r.abbreviation == c.abbreviation && r.description == c.description
  {
    MedicalCondition(id, c.name, c.abbreviation, c.description, true)
  }

  /** Another row than `id` holds `name`. */
  predicate NameHeldByOther(t: Tables, id: Uuid, name: string) {
    exists k :: k in t.conditions && k != id && t.conditions[k].name == name
  }

  /** `create_medical_condition`. */
  function CreateMedicalCondition(t: Tables, id: Uuid, c: MedicalConditionCreate): (o: Outcome<MedicalCondition>)
    requires Valid(t)
    requires id !in t.conditions
    ensures Valid(o.after)
    ensures o.after.(conditions := t.conditions) == t
    ensures NameHeldByOther(t, id, c.name) <==> o.result.Failure?
    ensures o.result.Failure? ==> (o.after == t
      && o.result.error == DatabaseError(DuplicateConditionOnCreateMessage, Some(IntegrityError(ConditionNameColumn))))
    ensures o.result.Success? ==> (o.result.value == NewMedicalCondition(id, c)
      && o.after.conditions == t.conditions[id := NewMedicalCondition(id, c)])
  {
    if NameHeldByOther(t, id, c.name) then
      Outcome(t, Failure(DatabaseError(DuplicateConditionOnCreateMessage, Some(IntegrityError(ConditionNameColumn)))))
    else
      var row := NewMedicalCondition(id, c);
      UniqueAfterPut(t.conditions, id, row, ConditionName);
      Outcome(t.(conditions := t.conditions[id := row]), Success(row))
  }

  /** `update_medical_condition`: as `update_person`, with the name clash wrapped. */
  function UpdateMedicalCondition(t: Tables, id: Uuid, u: MedicalConditionUpdate): (o: Outcome<Option<MedicalCondition>>)
    requires Valid(t)
    ensures Valid(o.after)
    ensures o.after.(conditions := t.conditions) == t
    ensures id !in t.conditions ==> o == Outcome(t, Success(None))
    ensures id in t.conditions ==>
      var q := UpdatedMedicalCondition(t.conditions[id], u);
      if NameHeldByOther(t, id, q.name) then
        o == Outcome(t, Failure(DatabaseError(DuplicateConditionOnUpdateMessage, Some(IntegrityError(ConditionNameColumn)))))
      else o.result == Success(Some(q)) && o.after.conditions == t.conditions[id := q]
  {
    if id !in t.conditions then Outcome(t, Success(None))
    else
      var q := UpdatedMedicalCondition(t.conditions[id], u);
      if NameHeldByOther(t, id, q.name) then
        Outcome(t, Failure(DatabaseError(DuplicateConditionOnUpdateMessage, Some(IntegrityError(ConditionNameColumn)))))
      else
        MedicalConditionUpdateWritesOnlySetFields(t.conditions[id], u);
        UniqueAfterPut(t.conditions, id, q, ConditionName);
        Outcome(t.(conditions := t.conditions[id := q]), Success(Some(q)))
  }

  /** `delete_medical_condition`: a soft delete. */
  function DeleteMedicalCondition(t: Tables, id: Uuid): (o: Outcome<bool>)
    requires Valid(t)
    ensures Valid(o.after)
    ensures o.after.(conditions := t.conditions) == t
    ensures o.result == Success(id in t.conditions)
    ensures id !in t.conditions ==> o.after == t
    ensures id in t.conditions ==> o.after.conditions == t.conditions[id := t.conditions[id].(isActive := false)]
  {
    if id !in t.conditions then Outcome(t, Success(false))
    else
      var row := t.conditions[id].(isActive := false);
      UniqueAfterPut(t.conditions, id, row, ConditionName);
      Outcome(t.(conditions := t.conditions[id := row]), Success(true))
  }

  // ----- Patients -----------------------------------------------------------------

  /** Step 3 of `create_patient_with_person`: the supplied first name, last
      name and phone overwrite the existing person's only where they are
      non-empty; id, email and active flag stay. */
  function MergeDetails(p: Person, c: PersonCreate): (r: Person)
    ensures r.personId == p.personId && r.email == p.email && r.isActive == p.isActive
    ensures r.firstName == (if c.firstName != "" then c.firstName else p.firstName)
    ensures r.lastName == (if c.lastName != "" then c.lastName else p.lastName)
    ensures r.phone == (if Truthy(c.phone) then c.phone else p.phone)
  {
    var r1 := if c.firstName != "" then p.(firstName := c.firstName) else p;
    var r2 := if c.lastName != "" then r1.(lastName := c.lastName) else r1;
    if Truthy(c.phone) then r2.(phone := c.phone) else r2
  }

  /** The merge keeps the store invariant: the email does not change. */
  lemma MergeKeepsValid(t: Tables, p: Person, c: PersonCreate)
    requires Valid(t)
    requires p.personId in t.persons && t.persons[p.personId] == p
    ensures Valid(t.(persons := t.persons[p.personId := MergeDetails(p, c)]))
  {
    UniqueAfterPut(t.persons, p.personId, MergeDetails(p, c), PersonEmail);
  }

  /** Step 4, shared by both ways of creating a patient: refuse a second
      patient for the person, otherwise insert one. */
  function AddPatient(t: Tables, patientId: Uuid, personId: Uuid, medicalConditionId: Uuid,
                      firstContactDate: Option<Date>, initialConsultDate: Option<Date>, status: string)
    : (o: Outcome<Patient>)
    requires Valid(t)
    requires patientId !in t.patients && personId in t.persons && medicalConditionId in t.conditions
    ensures Valid(o.after)
    ensures o.after.(patients := t.patients) == t
    ensures HasPatient(t, personId) <==> o.result.Failure?
    ensures o.result.Failure? ==> o == Outcome(t, Failure(DuplicatePatientError(personId)))
    ensures o.result.Success? ==> (o.result.value == Patient(patientId, personId, medicalConditionId, firstContactDate, initialConsultDate, status)
      && o.after.patients == t.patients[patientId := o.result.value])
  {
    if HasPatient(t, personId) then Outcome(t, Failure(DuplicatePatientError(personId)))
    else
      var row := Patient(patientId, personId, medicalConditionId, firstContactDate, initialConsultDate, status);
      UniqueAfterPut(t.patients, patientId, row, PatientPerson);
      Outcome(t.(patients := t.patients[patientId := row]), Success(row))
  }

  /** `create_patient_with_person`, step by step as written: the condition
      check, the person found by email (merged and committed) or created, then
      the duplicate check and the insert. A rejected duplicate keeps the
      committed merge. `personId` and `patientId` are the ids the store would
      generate. */
  function CreatePatientWithPerson(t: Tables, personId: Uuid, patientId: Uuid, req: PatientCreate)
    : (o: Outcome<Patient>)
    requires Valid(t)
    requires personId !in t.persons && patientId !in t.patients
    ensures Valid(o.after)
    ensures o.after.conditions == t.conditions && o.after.calls == t.calls && o.after.physicians == t.physicians
    ensures req.medicalConditionId !in t.conditions
            ==> o == Outcome(t, Failure(MedicalConditionNotFoundError(req.medicalConditionId)))
  {
    if req.medicalConditionId !in t.conditions then
      Outcome(t, Failure(MedicalConditionNotFoundError(req.medicalConditionId)))
    else
      match GetPersonByEmail(t, req.person.email)
      case None =>
        var created := CreatePerson(t, personId, req.person);
        (match created.result
         case Failure(e) => Outcome(created.after, Failure(e))
         case Success(person) =>
           AddPatient(created.after, patientId, person.personId, req.medicalConditionId,
                      req.firstContactDate, req.initialConsultDate, StatusOrDefault(req.status)))
      case Some(existing) =>
        var merged := MergeDetails(existing, req.person);
        MergeKeepsValid(t, existing, req.person);
        AddPatient(t.(persons := t.persons[existing.personId := merged]), patientId, existing.personId,
                   req.medicalConditionId, req.firstContactDate, req.initialConsultDate, StatusOrDefault(req.status))
  }

  /** `create_patient_with_existing_person`: person, then condition, then
      duplicate; the person's row is never written. */
  function CreatePatientWithExistingPerson(t: Tables, patientId: Uuid, req: PatientCreateWithPersonId)
    : (o: Outcome<Patient>)
    requires Valid(t)
    requires patientId !in t.patients
    ensures Valid(o.after)
    ensures o.after.(patients := t.patients) == t
    ensures o.result.Failure? ==> o.after == t
    ensures req.personId !in t.persons ==> o.result == Failure(PersonNotFoundError(Some(req.personId), None))
    ensures req.personId in t.persons && req.medicalConditionId !in t.conditions
            ==> o.result == Failure(MedicalConditionNotFoundError(req.medicalConditionId))
    ensures req.personId in t.persons && req.medicalConditionId in t.conditions && HasPatient(t, req.personId)
            ==> o.result == Failure(DuplicatePatientError(req.personId))
    ensures o.result.Success? <==> req.personId in t.persons && req.medicalConditionId in t.conditions && !HasPatient(t, req.personId)
    ensures o.result.Success? ==> (o.result.value == Patient(patientId, req.personId, req.medicalConditionId,
        req.firstContactDate, req.initialConsultDate, StatusOrDefault(req.status))
      && o.after.patients == t.patients[patientId := o.result.value])
  {
    if req.personId !in t.persons then Outcome(t, Failure(PersonNotFoundError(Some(req.personId), None)))
    else if req.medicalConditionId !in t.conditions then
      Outcome(t, Failure(MedicalConditionNotFoundError(req.medicalConditionId)))
    else
      AddPatient(t, patientId, req.personId, req.medicalConditionId,
                 req.firstContactDate, req.initialConsultDate, StatusOrDefault(req.status))
  }

  /** A person created with a fresh id has no patient yet. */
  lemma FreshPersonHasNoPatient(t: Tables, personId: Uuid)
    requires Valid(t)
    requires personId !in t.persons
    ensures !HasPatient(t, personId)
  {
  }

  /** Person resolution is by exact email: with no match exactly one person
      is created from the request, active; with a match no person is
      created, only the merge is written, and the email never changes. */
  lemma CreatePatientResolvesPersonByEmail(t: Tables, personId: Uuid, patientId: Uuid, req: PatientCreate)
    requires Valid(t)
    requires personId !in t.persons && patientId !in t.patients
    requires req.medicalConditionId in t.conditions
    ensures var o := CreatePatientWithPerson(t, personId, patientId, req);
      && (!EmailTaken(t, req.person.email) ==>
            o.after.persons == t.persons[personId := NewPerson(personId, req.person)])
      && (EmailTaken(t, req.person.email) ==>
            var q := GetPersonByEmail(t, req.person.email).value;
            && o.after.persons == t.persons[q.personId := MergeDetails(q, req.person)]
            && o.after.persons.Keys == t.persons.Keys
            && o.after.persons[q.personId].email == q.email)
  {
    if EmailTaken(t, req.person.email) {
      var q := GetPersonByEmail(t, req.person.email).value;
      assert t.persons[q.personId := MergeDetails(q, req.person)].Keys == t.persons.Keys;
    }
  }

  /** The request is refused exactly when the person the email resolves to
      already has a patient; the patient table is then unchanged, but the
      merge of step 3 stays committed. */
  lemma CreatePatientRefusesDuplicate(t: Tables, personId: Uuid, patientId: Uuid, req: PatientCreate)
    requires Valid(t)
    requires personId !in t.persons && patientId !in t.patients
    requires req.medicalConditionId in t.conditions
    ensures var o := CreatePatientWithPerson(t, personId, patientId, req);
      && (o.result.Failure? <==>
            EmailTaken(t, req.person.email) && HasPatient(t, GetPersonByEmail(t, req.person.email).value.personId))
      && (o.result.Failure? ==>
            var q := GetPersonByEmail(t, req.person.email).value;
            && o.result.error == DuplicatePatientError(q.personId)
            && o.after.patients == t.patients
            && o.after.persons == t.persons[q.personId := MergeDetails(q, req.person)])
  {
    var o := CreatePatientWithPerson(t, personId, patientId, req);
    if !EmailTaken(t, req.person.email) {
      FreshPersonHasNoPatient(t, personId);
    } else {
      var q := GetPersonByEmail(t, req.person.email).value;
      var merged := t.(persons := t.persons[q.personId := MergeDetails(q, req.person)]);
      assert HasPatient(merged, q.personId) == HasPatient(t, q.personId);
    }
  }

  /** On success exactly one patient is inserted, for the resolved person,
      with the request's condition, dates and status ("active" when omitted). */
  lemma CreatePatientInsertsOne(t: Tables, personId: Uuid, patientId: Uuid, req: PatientCreate)
    requires Valid(t)
    requires personId !in t.persons && patientId !in t.patients
    requires CreatePatientWithPerson(t, personId, patientId, req).result.Success?
    ensures var o := CreatePatientWithPerson(t, personId, patientId, req);
      var r := o.result.value;
      && o.after.patients == t.patients[patientId := r]
      && r.patientId == patientId
      && r.personId == (if EmailTaken(t, req.person.email) then GetPersonByEmail(t, req.person.email).value.personId else personId)
      && r.personId in o.after.persons && o.after.persons[r.personId].email == req.person.email
      && r.medicalConditionId == req.medicalConditionId
      && r.firstContactDate == req.firstContactDate && r.initialConsultDate == req.initialConsultDate
      && r.status == (if req.status.Some? then req.status.value else DefaultPatientStatus)
  {
  }

  /** A store holding one person, "Ann", who already has a patient. */
  function ReturningPatientStore(): (t: Tables)
    ensures Valid(t)
  {
    var t := Tables(map["p1" := Person("p1", "Ann", "Lee", "ann@example.org", None, true)],
                    map["c1" := MedicalCondition("c1", "Asthma", None, None, true)],
                    map["t1" := Patient("t1", "p1", "c1", None, None, "active")],
                    map[], map[]);
    assert KeyedById(t);
    assert UniqueColumns(t);
    assert ReferencesResolve(t);
    t
  }

  /** A second registration with Ann's email and the first name "Anne". */
  const RenamingRequest := PatientCreate("c1", None, None, None, PersonCreate("Anne", "Lee", "ann@example.org", None))

  /** The reconciliation as written lets a refused request change the
      person: here the stored first name "Ann" becomes "Anne" although the
      request fails with DuplicatePatient. */
  lemma DuplicateRejectionStillMerges()
    ensures var t := ReturningPatientStore();
      var o := CreatePatientWithPerson(t, "p2", "t2", RenamingRequest);
      && o.result == Failure(DuplicatePatientError("p1"))
      && t.persons["p1"].firstName == "Ann"
      && o.after.persons["p1"].firstName == "Anne"
      && o.after != t
  {
    var t := ReturningPatientStore();
    var req := RenamingRequest;
    var person := t.persons["p1"];
    assert person.email == "ann@example.org";
    assert EmailTaken(t, "ann@example.org");
    assert GetPersonByEmail(t, "ann@example.org") == Some(person);
    assert t.patients["t1"].personId == "p1";
    assert HasPatient(t, "p1");
    CreatePatientRefusesDuplicate(t, "p2", "t2", req);
    var o := CreatePatientWithPerson(t, "p2", "t2", req);
    assert o.after.persons["p1"] == MergeDetails(person, req.person);
    assert "Anne" != "Ann";
  }

  /** The reconciliation with the duplicate check done before the merge is
      committed, so that a refused request writes nothing. */
  function CreatePatientWithPersonAtomic(t: Tables, personId: Uuid, patientId: Uuid, req: PatientCreate)
    : (o: Outcome<Patient>)
    requires Valid(t)
    requires personId !in t.persons && patientId !in t.patients
    ensures Valid(o.after)
  {
    if req.medicalConditionId !in t.conditions then
      Outcome(t, Failure(MedicalConditionNotFoundError(req.medicalConditionId)))
    else
      match GetPersonByEmail(t, req.person.email)
      case None =>
        var created := CreatePerson(t, personId, req.person);
        (match created.result
         case Failure(e) => Outcome(created.after, Failure(e))
         case Success(person) =>
           AddPatient(created.after, patientId, person.personId, req.medicalConditionId,
                      req.firstContactDate, req.initialConsultDate, StatusOrDefault(req.status)))
      case Some(existing) =>
        if HasPatient(t, existing.personId) then Outcome(t, Failure(DuplicatePatientError(existing.personId)))
        else
          var merged := MergeDetails(existing, req.person);
          MergeKeepsValid(t, existing, req.person);
          AddPatient(t.(persons := t.persons[existing.personId := merged]), patientId, existing.personId,
                     req.medicalConditionId, req.firstContactDate, req.initialConsultDate, StatusOrDefault(req.status))
  }

  /** A refused request leaves every table as it was. */
  lemma AtomicFailureChangesNothing(t: Tables, personId: Uuid, patientId: Uuid, req: PatientCreate)
    requires Valid(t)
    requires personId !in t.persons && patientId !in t.patients
    ensures var o := CreatePatientWithPersonAtomic(t, personId, patientId, req);
      o.result.Failure? ==> o.after == t
  {
    if req.medicalConditionId in t.conditions && !EmailTaken(t, req.person.email) {
      FreshPersonHasNoPatient(t, personId);
    }
  }

  /** Apart from what a refused request leaves behind, the corrected
      reconciliation agrees with the one as written: the same result for
      every request, and the same tables whenever it succeeds. */
  lemma AtomicAgreesWithAsWritten(t: Tables, personId: Uuid, patientId: Uuid, req: PatientCreate)
    requires Valid(t)
    requires personId !in t.persons && patientId !in t.patients
    ensures var a := CreatePatientWithPersonAtomic(t, personId, patientId, req);
      var w := CreatePatientWithPerson(t, personId, patientId, req);
      && a.result == w.result
      && (a.result.Success? ==> a.after == w.after)
  {
    if req.medicalConditionId in t.conditions && EmailTaken(t, req.person.email) {
      var q := GetPersonByEmail(t, req.person.email).value;
      var merged := t.(persons := t.persons[q.personId := MergeDetails(q, req.person)]);
      assert HasPatient(merged, q.personId) == HasPatient(t, q.personId);
    }
  }

  /** Once a patient has been created for an email, a second request with
      the same email is refused as a duplicate of the same person. */
  lemma SecondRequestSameEmailIsDuplicate(t: Tables, personId: Uuid, patientId: Uuid, req: PatientCreate,
                                          personId2: Uuid, patientId2: Uuid, req2: PatientCreate)
    requires Valid(t)
    requires personId !in t.persons && patientId !in t.patients
    requires CreatePatientWithPerson(t, personId, patientId, req).result.Success?
    requires var t1 := CreatePatientWithPerson(t, personId, patientId, req).after;
      personId2 !in t1.persons && patientId2 !in t1.patients && req2.medicalConditionId in t1.conditions
    requires req2.person.email == req.person.email
    ensures var first := CreatePatientWithPerson(t, personId, patientId, req);
      CreatePatientWithPerson(first.after, personId2, patientId2, req2).result
        == Failure(DuplicatePatientError(first.result.value.personId))
  {
    var first := CreatePatientWithPerson(t, personId, patientId, req);
    var t1 := first.after;
    var r := first.result.value;
    CreatePatientInsertsOne(t, personId, patientId, req);
    assert t1.patients[patientId] == r;
    assert EmailTaken(t1, req.person.email);
    var q := GetPersonByEmail(t1, req.person.email).value;
    assert t1.persons[r.personId].email == req.person.email;
    assert q.personId == r.personId;
    assert HasPatient(t1, r.personId);
    CreatePatientRefusesDuplicate(t1, personId2, patientId2, req2);
  }

  const PatientConditionColumn := "patient.medical_condition_id"
  const CallPatientColumn := "call_history.patient_id"

  /** `update_patient`: a condition id that names no condition violates the
      foreign key (the commit fails and nothing is written). */
  function UpdatePatient(t: Tables, id: Uuid, u: PatientUpdate): (o: Outcome<Option<Patient>>)
    requires Valid(t)
    ensures Valid(o.after)
    ensures o.after.(patients := t.patients) == t
    ensures id !in t.patients ==> o == Outcome(t, Success(None))
    ensures id in t.patients ==>
      var q := UpdatedPatient(t.patients[id], u);
      if q.medicalConditionId !in t.conditions then o == Outcome(t, Failure(IntegrityError(PatientConditionColumn)))
      else o.result == Success(Some(q)) && o.after.patients == t.patients[id := q]
  {
    if id !in t.patients then Outcome(t, Success(None))
    else
      var q := UpdatedPatient(t.patients[id], u);
      if q.medicalConditionId !in t.conditions then Outcome(t, Failure(IntegrityError(PatientConditionColumn)))
      else
        PatientUpdateWritesOnlySetFields(t.patients[id], u);
        UniqueAfterPut(t.patients, id, q, PatientPerson);
        Outcome(t.(patients := t.patients[id := q]), Success(Some(q)))
  }

  /** The patient has call records. */
  predicate HasCalls(t: Tables, patientId: Uuid) {
    exists k :: k in t.calls && t.calls[k].patientId == patientId
  }

  /** `delete_patient`: a hard delete. The relationship to the call records
      has no delete cascade, so deleting a patient that has calls would null
      their required `patient_id`; the commit fails and nothing is written. */
  function DeletePatient(t: Tables, id: Uuid): (o: Outcome<bool>)
    requires Valid(t)
    ensures Valid(o.after)
    ensures o.after.(patients := t.patients) == t
    ensures id !in t.patients ==> o == Outcome(t, Success(false))
    ensures id in t.patients && HasCalls(t, id) ==> o == Outcome(t, Failure(IntegrityError(CallPatientColumn)))
    ensures id in t.patients && !HasCalls(t, id) ==> o.result == Success(true) && o.after.patients == t.patients - {id}
    ensures o.result == Success(true) ==> GetPatient(o.after, id) == None
  {
    if id !in t.patients then Outcome(t, Success(false))
    else if HasCalls(t, id) then Outcome(t, Failure(IntegrityError(CallPatientColumn)))
    else
      RemovePatientKeepsValid(t, id);
      Outcome(t.(patients := t.patients - {id}), Success(true))
  }

  /** Removing a patient no call record refers to keeps the store invariant. */
  lemma RemovePatientKeepsValid(t: Tables, id: Uuid)
    requires Valid(t)
    requires !HasCalls(t, id)
    ensures Valid(t.(patients := t.patients - {id}))
  {
  }

  // ----- Call records -----------------------------------------------------------------

  const CallNavigatorColumn := "call_history.pn_id"
  const DatabaseFailurePrefix := "Database operation failed: "

  /** The row `create_call_history` adds: every column copied from the
      request, `no_show` false unless set, and a duration that is never
      negative. */
  function NewCallHistory(id: Uuid, c: CallHistoryCreate): (r: CallHistory)
    ensures r.callId == id && r.patientId == c.patientId && r.pnId == c.pnId
    ensures r.bookingDate == c.bookingDate && r.callDate == c.callDate && r.reminderDate == c.reminderDate
    ensures r.noShow == (c.noShow.Some? && c.noShow.value)
    ensures r.callDurationMinutes.Some? <==> c.callDurationMinutes.Some?
    ensures r.callDurationMinutes.Some? ==> r.callDurationMinutes.value == c.callDurationMinutes.value >= 0
    ensures r.outcome == c.outcome && r.notes == c.notes
  {
    CallHistory(id, c.patientId, c.pnId, c.bookingDate, c.callDate, c.reminderDate,
                if c.noShow.Some? then c.noShow.value else false,
                DurationMinutes(c.callDurationMinutes),
                c.outcome, c.notes)
  }

  const CallDurationColumn := "call_history.call_duration_minutes"

  /** The navigator id, when one is given, names an existing person. */
  predicate NavigatorResolves(t: Tables, pnId: Option<Uuid>) {
    pnId.None? || pnId.value in t.persons
  }

  /** `create_call_history`: PatientNotFound for an unknown patient. At the
      commit, a duration the INTEGER column cannot hold is refused first,
      then a navigator id naming no person violates the foreign key; the
      generic handler wraps either. Otherwise one record is added. */
  function CreateCallHistory(t: Tables, id: Uuid, c: CallHistoryCreate): (o: Outcome<CallHistory>)
    requires Valid(t)
    requires id !in t.calls
    ensures Valid(o.after)
    ensures o.after.(calls := t.calls) == t
    ensures o.result.Failure? ==> o.after == t
    ensures c.patientId !in t.patients ==> o.result == Failure(PatientNotFoundError(c.patientId))
    ensures c.patientId in t.patients && c.callDurationMinutes.Some? && c.callDurationMinutes.value > MaxInteger ==>
      o.result == Failure(DatabaseError(DatabaseFailurePrefix + Message(DataError(CallDurationColumn)),
                                        Some(DataError(CallDurationColumn))))
    ensures c.patientId in t.patients && FitsInteger(DurationMinutes(c.callDurationMinutes))
            && !NavigatorResolves(t, c.pnId) ==>
      o.result == Failure(DatabaseError(DatabaseFailurePrefix + Message(IntegrityError(CallNavigatorColumn)),
                                        Some(IntegrityError(CallNavigatorColumn))))
    ensures o.result.Success? <==>
      c.patientId in t.patients && FitsInteger(DurationMinutes(c.callDurationMinutes)) && NavigatorResolves(t, c.pnId)
    ensures o.result.Success? ==> (o.result.value == NewCallHistory(id, c)
      && o.after.calls == t.calls[id := o.result.value])
  {
    if c.patientId !in t.patients then Outcome(t, Failure(PatientNotFoundError(c.patientId)))
    else if !FitsInteger(DurationMinutes(c.callDurationMinutes)) then
      var e := DataError(CallDurationColumn);
      Outcome(t, Failure(DatabaseError(DatabaseFailurePrefix + Message(e), Some(e))))
    else if !NavigatorResolves(t, c.pnId) then
      var e := IntegrityError(CallNavigatorColumn);
      Outcome(t, Failure(DatabaseError(DatabaseFailurePrefix + Message(e), Some(e))))
    else Outcome(t.(calls := t.calls[id := NewCallHistory(id, c)]), Success(NewCallHistory(id, c)))
  }

  /** `update_call_history`: the commit fails, and nothing is written, on a
      duration the INTEGER column cannot hold and then on a navigator id
      naming no person; neither error is caught. */
  function UpdateCallHistory(t: Tables, id: Uuid, u: CallHistoryUpdate): (o: Outcome<Option<CallHistory>>)
    requires Valid(t)
    ensures Valid(o.after)
    ensures o.after.(calls := t.calls) == t
    ensures id !in t.calls ==> o == Outcome(t, Success(None))
    ensures id in t.calls ==>
      var q := UpdatedCallHistory(t.calls[id], u);
      if !FitsInteger(q.callDurationMinutes) then o == Outcome(t, Failure(DataError(CallDurationColumn)))
      else if !NavigatorResolves(t, q.pnId) then o == Outcome(t, Failure(IntegrityError(CallNavigatorColumn)))
      else o.result == Success(Some(q)) && o.after.calls == t.calls[id := q]
  {
    if id !in t.calls then Outcome(t, Success(None))
    else
      var q := UpdatedCallHistory(t.calls[id], u);
      if !FitsInteger(q.callDurationMinutes) then Outcome(t, Failure(DataError(CallDurationColumn)))
      else if !NavigatorResolves(t, q.pnId) then Outcome(t, Failure(IntegrityError(CallNavigatorColumn)))
      else
        CallHistoryUpdateWritesOnlySetFields(t.calls[id], u);
        CallWriteKeepsValid(t, id, q);
        Outcome(t.(calls := t.calls[id := q]), Success(Some(q)))
  }

  /** Writing a call record whose references resolve keeps the store invariant. */
  lemma CallWriteKeepsValid(t: Tables, id: Uuid, q: CallHistory)
    requires Valid(t)
    requires q.callId == id && q.patientId in t.patients && NavigatorResolves(t, q.pnId)
    requires FitsInteger(q.callDurationMinutes)
    ensures Valid(t.(calls := t.calls[id := q]))
  {
  }

  /** `delete_call_history`: a hard delete; nothing refers to a call record. */
  function DeleteCallHistory(t: Tables, id: Uuid): (o: Outcome<bool>)
    requires Valid(t)
    ensures Valid(o.after)
    ensures o.after.(calls := t.calls) == t
    ensures o.result == Success(id in t.calls)
    ensures o.after.calls == t.calls - {id}
    ensures GetCallHistory(o.after, id) == None
  {
    Outcome(t.(calls := t.calls - {id}), Success(id in t.calls))
  }

  // ----- Properties across operations ---------------------------------------------------

  /** An update with no field set changes nothing and returns the row as stored. */
  lemma EmptyPersonUpdateChangesNothing(t: Tables, id: Uuid)
    requires Valid(t)
    requires id in t.persons
    ensures UpdatePerson(t, id, PersonUpdate(None, None, None, None, None)) == Outcome(t, Success(Some(t.persons[id])))
  {
    var p := t.persons[id];
    PersonUpdateWritesOnlySetFields(p, PersonUpdate(None, None, None, None, None));
    assert t.persons[id := p] == t.persons;
  }

  lemma EmptyMedicalConditionUpdateChangesNothing(t: Tables, id: Uuid)
    requires Valid(t)
    requires id in t.conditions
    ensures UpdateMedicalCondition(t, id, MedicalConditionUpdate(None, None, None, None))
            == Outcome(t, Success(Some(t.conditions[id])))
  {
    var c := t.conditions[id];
    MedicalConditionUpdateWritesOnlySetFields(c, MedicalConditionUpdate(None, None, None, None));
    assert t.conditions[id := c] == t.conditions;
  }

  lemma EmptyPatientUpdateChangesNothing(t: Tables, id: Uuid)
    requires Valid(t)
    requires id in t.patients
    ensures UpdatePatient(t, id, PatientUpdate(None, None, None, None)) == Outcome(t, Success(Some(t.patients[id])))
  {
    var p := t.patients[id];
    PatientUpdateWritesOnlySetFields(p, PatientUpdate(None, None, None, None));
    assert t.patients[id := p] == t.patients;
  }

  lemma EmptyCallHistoryUpdateChangesNothing(t: Tables, id: Uuid)
    requires Valid(t)
    requires id in t.calls
    ensures UpdateCallHistory(t, id, CallHistoryUpdate(None, None, None, None, None, None, None, None))
            == Outcome(t, Success(Some(t.calls[id])))
  {
    var c := t.calls[id];
    CallHistoryUpdateWritesOnlySetFields(c, CallHistoryUpdate(None, None, None, None, None, None, None, None));
    assert UpdatedCallHistory(c, CallHistoryUpdate(None, None, None, None, None, None, None, None)) == c;
    assert t.calls[id := c] == t.calls;
  }

  /** The keys of the call records of one patient. */
  function PatientCallKeys(calls: map<Uuid, CallHistory>, patientId: Uuid): set<Uuid> {
    set k | k in calls && calls[k].patientId == patientId
  }

  function CallsOf(t: Tables, patientId: Uuid): set<Uuid> {
    PatientCallKeys(t.calls, patientId)
  }

  /** Inserting a fresh record adds it to its patient's records and to no other's. */
  lemma CallsOfInsert(calls: map<Uuid, CallHistory>, id: Uuid, r: CallHistory)
    requires id !in calls
    ensures PatientCallKeys(calls[id := r], r.patientId) == PatientCallKeys(calls, r.patientId) + {id}
    ensures forall p :: p != r.patientId ==> PatientCallKeys(calls[id := r], p) == PatientCallKeys(calls, p)
  {
  }

  /** Adding a call record leaves every earlier record as it was, and the
      patient's records grow by exactly the new one. */
  lemma CreateCallHistoryAppends(t: Tables, id: Uuid, c: CallHistoryCreate)
    requires Valid(t)
    requires id !in t.calls
    requires CreateCallHistory(t, id, c).result.Success?
    ensures var after := CreateCallHistory(t, id, c).after;
      && (forall k :: k in t.calls ==> k in after.calls && after.calls[k] == t.calls[k])
      && CallsOf(after, c.patientId) == CallsOf(t, c.patientId) + {id}
      && |CallsOf(after, c.patientId)| == |CallsOf(t, c.patientId)| + 1
      && (forall p :: p != c.patientId ==> CallsOf(after, p) == CallsOf(t, p))
  {
    var o := CreateCallHistory(t, id, c);
    var r := NewCallHistory(id, c);
    var calls := t.calls[id := r];
    assert o.after.calls == calls;
    CallsOfInsert(t.calls, id, r);
    assert r.patientId == c.patientId;
    assert id !in CallsOf(t, c.patientId);
    forall p | p != c.patientId ensures CallsOf(o.after, p) == CallsOf(t, p) {
      assert CallsOf(o.after, p) == PatientCallKeys(calls, p);
    }
  }

  /** After a soft delete the row is still found, inactive. */
  lemma SoftDeletedPersonStillFound(t: Tables, id: Uuid)
    requires Valid(t)
    requires id in t.persons
    ensures var after := DeletePerson(t, id).after;
      GetPerson(after, id) == Some(t.persons[id].(isActive := false))
      && GetPersonByEmail(after, t.persons[id].email) == Some(t.persons[id].(isActive := false))
  {
    var after := DeletePerson(t, id).after;
    assert after.persons[id].email == t.persons[id].email;
  }

  lemma SoftDeletedConditionStillFound(t: Tables, id: Uuid)
    requires Valid(t)
    requires id in t.conditions
    ensures GetMedicalCondition(DeleteMedicalCondition(t, id).after, id) == Some(t.conditions[id].(isActive := false))
  {
  }
}
