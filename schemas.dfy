/** Request shapes the data-access layer receives, after validation. An
    update carries `Some` exactly for the fields the client set; for a
    nullable column the set value is itself an `Option` (`Some(None)` writes
    NULL). `...Items` lists the set fields in declaration order, as
    `model_dump(exclude_unset=True)` does: each field of an update has one
    slot, `Some` of its item when the field was set. */
module Schemas {
  import opened Models

  /** The items of the filled slots, in slot order: no item is invented and
      no filled slot is dropped. */
  function Present<F>(slots: seq<Option<F>>): (r: seq<F>)
    ensures |r| <= |slots|
    ensures forall f :: f in r ==> Some(f) in slots
    ensures forall i :: 0 <= i < |slots| && slots[i].Some? ==> slots[i].value in r
  {
    if slots == [] then []
    else
      assert forall i :: 1 <= i < |slots| ==> slots[i] == slots[1..][i - 1];
      (if slots[0].Some? then [slots[0].value] else []) + Present(slots[1..])
  }

  /** The order: the items of `a + b` are those of `a` followed by those of
      `b`. With `Present([Some(x)]) == [x]` and `Present([None]) == []`
      this fixes the result of every list of slots. */
  lemma {:induction false} PresentAppend<F>(a: seq<Option<F>>, b: seq<Option<F>>)
    ensures Present(a + b) == Present(a) + Present(b)
    ensures forall x: F :: Present([Some(x)]) == [x]
    ensures Present<F>([None]) == []
  {
    if a == [] {
      assert a + b == b;
    } else {
      assert (a + b)[0] == a[0];
      assert (a + b)[1..] == a[1..] + b;
      PresentAppend(a[1..], b);
    }
    forall x: F ensures Present([Some(x)]) == [x] {
      assert [Some(x)][1..] == [];
    }
    var none: seq<Option<F>> := [None];
    assert none[1..] == [];
  }

  datatype PersonCreate = PersonCreate(
    firstName: string,
    lastName: string,
    email: string,
    phone: Option<string>)

  datatype PersonUpdate = PersonUpdate(
    firstName: Option<string>,
    lastName: Option<string>,
    email: Option<string>,
    phone: Option<Option<string>>,
    isActive: Option<bool>)

  datatype PersonField =
    | SetFirstName(firstName: string)
    | SetLastName(lastName: string)
    | SetEmail(email: string)
    | SetPhone(phone: Option<string>)
    | SetPersonActive(isActive: bool)

  function PersonUpdateSlots(u: PersonUpdate): seq<Option<PersonField>> {
    [
      if u.firstName.Some? then Some(SetFirstName(u.firstName.value)) else None,
      if u.lastName.Some? then Some(SetLastName(u.lastName.value)) else None,
      if u.email.Some? then Some(SetEmail(u.email.value)) else None,
      if u.phone.Some? then Some(SetPhone(u.phone.value)) else None,
      if u.isActive.Some? then Some(SetPersonActive(u.isActive.value)) else None]
  }

  function PersonUpdateItems(u: PersonUpdate): seq<PersonField> {
    Present(PersonUpdateSlots(u))
  }

  datatype MedicalConditionCreate = MedicalConditionCreate(
    name: string,
    abbreviation: Option<string>,
    description: Option<string>)

  datatype MedicalConditionUpdate = MedicalConditionUpdate(
    name: Option<string>,
    abbreviation: Option<Option<string>>,
    description: Option<Option<string>>,
    isActive: Option<bool>)

  datatype MedicalConditionField =
    | SetName(name: string)
    | SetAbbreviation(abbreviation: Option<string>)
    | SetDescription(description: Option<string>)
    | SetConditionActive(isActive: bool)

  function MedicalConditionUpdateSlots(u: MedicalConditionUpdate): seq<Option<MedicalConditionField>> {
    [
      if u.name.Some? then Some(SetName(u.name.value)) else None,
      if u.abbreviation.Some? then Some(SetAbbreviation(u.abbreviation.value)) else None,
      if u.description.Some? then Some(SetDescription(u.description.value)) else None,
      if u.isActive.Some? then Some(SetConditionActive(u.isActive.value)) else None]
  }

  function MedicalConditionUpdateItems(u: MedicalConditionUpdate): seq<MedicalConditionField> {
    Present(MedicalConditionUpdateSlots(u))
  }

  /** `status` is `None` when the client omitted it; the schema then supplies "active". */
  datatype PatientCreate = PatientCreate(
    medicalConditionId: Uuid,
    firstContactDate: Option<Date>,
    initialConsultDate: Option<Date>,
    status: Option<string>,
    person: PersonCreate)

  datatype PatientCreateWithPersonId = PatientCreateWithPersonId(
    medicalConditionId: Uuid,
    firstContactDate: Option<Date>,
    initialConsultDate: Option<Date>,
    status: Option<string>,
    personId: Uuid)

  function StatusOrDefault(status: Option<string>): string {
    if status.Some? then status.value else DefaultPatientStatus
  }

  datatype PatientUpdate = PatientUpdate(
    medicalConditionId: Option<Uuid>,
    firstContactDate: Option<Option<Date>>,
    initialConsultDate: Option<Option<Date>>,
    status: Option<string>)

  datatype PatientField =
    | SetMedicalCondition(medicalConditionId: Uuid)
    | SetFirstContactDate(firstContactDate: Option<Date>)
    | SetInitialConsultDate(initialConsultDate: Option<Date>)
    | SetStatus(status: string)

  function PatientUpdateSlots(u: PatientUpdate): seq<Option<PatientField>> {
    [
      if u.medicalConditionId.Some? then Some(SetMedicalCondition(u.medicalConditionId.value)) else None,
      if u.firstContactDate.Some? then Some(SetFirstContactDate(u.firstContactDate.value)) else None,
      if u.initialConsultDate.Some? then Some(SetInitialConsultDate(u.initialConsultDate.value)) else None,
      if u.status.Some? then Some(SetStatus(u.status.value)) else None]
  }

  function PatientUpdateItems(u: PatientUpdate): seq<PatientField> {
    Present(PatientUpdateSlots(u))
  }

  /** `noShow` is `None` when the client omitted it; the schema then supplies false. */
  datatype CallHistoryCreate = CallHistoryCreate(
    patientId: Uuid,
    pnId: Option<Uuid>,
    bookingDate: Option<Timestamp>,
    callDate: Option<Timestamp>,
    reminderDate: Option<Timestamp>,
    noShow: Option<bool>,
    callDurationMinutes: Option<nat>,
    outcome: Option<string>,
    notes: Option<string>)

  datatype CallHistoryUpdate = CallHistoryUpdate(
    pnId: Option<Option<Uuid>>,
    bookingDate: Option<Option<Timestamp>>,
    callDate: Option<Option<Timestamp>>,
    reminderDate: Option<Option<Timestamp>>,
    noShow: Option<bool>,
    callDurationMinutes: Option<Option<nat>>,
    outcome: Option<Option<string>>,
    notes: Option<Option<string>>)

  datatype CallHistoryField =
    | SetNavigator(pnId: Option<Uuid>)
    | SetBookingDate(bookingDate: Option<Timestamp>)
    | SetCallDate(callDate: Option<Timestamp>)
    | SetReminderDate(reminderDate: Option<Timestamp>)
    | SetNoShow(noShow: bool)
    | SetCallDuration(callDurationMinutes: Option<nat>)
    | SetOutcome(outcome: Option<string>)
    | SetNotes(notes: Option<string>)

  /** The slots of the navigator and the three dates. */
  function CallScheduleSlots(u: CallHistoryUpdate): seq<Option<CallHistoryField>> {
    [
      if u.pnId.Some? then Some(SetNavigator(u.pnId.value)) else None,
      if u.bookingDate.Some? then Some(SetBookingDate(u.bookingDate.value)) else None,
      if u.callDate.Some? then Some(SetCallDate(u.callDate.value)) else None,
      if u.reminderDate.Some? then Some(SetReminderDate(u.reminderDate.value)) else None]
  }

  /** The slots of the no-show flag, the duration, the outcome and the notes. */
  function CallOutcomeSlots(u: CallHistoryUpdate): seq<Option<CallHistoryField>> {
    [
      if u.noShow.Some? then Some(SetNoShow(u.noShow.value)) else None,
      if u.callDurationMinutes.Some? then Some(SetCallDuration(u.callDurationMinutes.value)) else None,
      if u.outcome.Some? then Some(SetOutcome(u.outcome.value)) else None,
      if u.notes.Some? then Some(SetNotes(u.notes.value)) else None]
  }

  function CallHistoryUpdateSlots(u: CallHistoryUpdate): seq<Option<CallHistoryField>> {
    CallScheduleSlots(u) + CallOutcomeSlots(u)
  }

  function CallHistoryUpdateItems(u: CallHistoryUpdate): seq<CallHistoryField> {
    Present(CallHistoryUpdateSlots(u))
  }
}
