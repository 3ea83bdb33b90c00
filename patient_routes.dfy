/** The patient endpoints around the data-access layer: the pagination
    arithmetic of the list endpoint, the mapping from the exceptions of the
    two create endpoints to HTTP status codes, and the patient-exists guard
    of the call-history endpoint. */
module PatientRoutes {
  import opened Models
  import opened Exceptions
  import opened Schemas
  import opened Listing
  import Crud

  /** Bounds of the `limit` query parameter; `skip` is at least 0. */
  const MinLimit := 1
  const MaxLimit := 1000

  const StatusOk := 200
  const StatusCreated := 201
  const StatusNotFound := 404
  const StatusConflict := 409
  const StatusServerError := 500

  const CreateFailedDetail := "Failed to create patient due to database error"

  /** A reply: the body with its status code, an HTTPException raised by the
      handler, or an exception the handler does not catch. */
  datatype Reply<T> =
    | Ok(statusCode: int, body: T)
    | HttpError(statusCode: int, detail: string)
    | Propagated(error: Error)

  // ----- Pagination --------------------------------------------------------------

  /** `ceil(total / limit) if limit > 0 else 0`: the least number of pages of
      `limit` rows that hold `total` rows. */
  function TotalPages(total: nat, limit: int): (r: nat)
    ensures limit > 0 ==> r * limit >= total && (r == 0 || (r - 1) * limit < total)
    ensures limit > 0 ==> (r == 0 <==> total == 0)
    ensures limit <= 0 ==> r == 0
  {
    if limit > 0 then
      var r := (total + limit - 1) / limit;
      assert r * limit <= total + limit - 1 < r * limit + limit;
      r
    else 0
  }

  /** `(skip // limit) + 1 if limit > 0 else 1`: the 1-based number of the
      page on which row `skip` falls. */
  function PageNumber(skip: nat, limit: int): (r: int)
    ensures r >= 1
    ensures limit > 0 ==> (r - 1) * limit <= skip < r * limit
    ensures limit <= 0 ==> r == 1
  {
    if limit > 0 then
      var q := skip / limit;
      assert q * limit <= skip < q * limit + limit;
      q + 1
    else 1
  }

  datatype PatientList = PatientList(
    items: seq<Patient>,
    total: nat,
    page: int,
    pageSize: int,
    totalPages: nat)

  /** `read_patients`: one page of `get_patients` with the page arithmetic. */
  function ReadPatients(t: Crud.Tables, scan: seq<Uuid>, skip: nat, limit: int,
                        status: Option<string>, medicalConditionId: Option<Uuid>): (r: PatientList)
    requires IsScan(scan, t.patients)
    requires MinLimit <= limit <= MaxLimit
    ensures r.total == |set k | k in t.patients && Crud.PatientMatches(t.patients[k], status, medicalConditionId)|
    ensures |r.items| == WindowLength(r.total, skip, limit)
    ensures var matches := Select(t.patients, scan, Crud.PatientFilter(status, medicalConditionId));
      forall i :: 0 <= i < |r.items| ==> skip + i < |matches| && r.items[i] == matches[skip + i]
    ensures forall p :: p in r.items ==> p in t.patients.Values && Crud.PatientMatches(p, status, medicalConditionId)
    ensures r.pageSize == limit && |r.items| <= limit
    ensures r.totalPages == TotalPages(r.total, limit) && r.page == PageNumber(skip, limit)
    ensures r.totalPages * limit >= r.total
    ensures r.totalPages == 0 <==> r.total == 0
    ensures (r.page - 1) * limit <= skip < r.page * limit
  {
    var (items, total) := Crud.GetPatients(t, scan, skip, limit, status, medicalConditionId);
    PatientList(items, total, PageNumber(skip, limit), limit, TotalPages(total, limit))
  }

  /** The row at offset `skip` of `total` rows lies on one of the pages. */
  lemma {:induction false} PageWithinTotalPages(skip: nat, total: nat, limit: int)
    requires limit > 0 && skip < total
    ensures 1 <= PageNumber(skip, limit) <= TotalPages(total, limit)
  {
    var p, n := PageNumber(skip, limit), TotalPages(total, limit);
    if p - 1 >= n {
      MulMonotone(n, p - 1, limit);
      assert false;
    }
  }

  /** Arithmetic helper: multiplying by a positive number keeps order. */
  lemma MulMonotone(a: int, b: int, c: int)
    requires a <= b && c > 0
    ensures a * c <= b * c
  {
  }

  /** A page that holds any row is one of the `totalPages` pages. */
  lemma NonEmptyPageWithinTotalPages(t: Crud.Tables, scan: seq<Uuid>, skip: nat, limit: int,
                                     status: Option<string>, medicalConditionId: Option<Uuid>)
    requires IsScan(scan, t.patients)
    requires MinLimit <= limit <= MaxLimit
    ensures var r := ReadPatients(t, scan, skip, limit, status, medicalConditionId);
      r.items != [] ==> 1 <= r.page <= r.totalPages
  {
    var r := ReadPatients(t, scan, skip, limit, status, medicalConditionId);
    if r.items != [] {
      PageWithinTotalPages(skip, r.total, limit);
    }
  }

  /** On a store with no patients the list is empty and there are no pages. */
  lemma EmptyStoreListsNothing(t: Crud.Tables, scan: seq<Uuid>, skip: nat, limit: int,
                               status: Option<string>, medicalConditionId: Option<Uuid>)
    requires t.patients == map[]
    requires IsScan(scan, t.patients)
    requires MinLimit <= limit <= MaxLimit
    ensures var r := ReadPatients(t, scan, skip, limit, status, medicalConditionId);
      r.items == [] && r.total == 0 && r.totalPages == 0 && r.page == skip / limit + 1 && r.pageSize == limit
  {
  }

  // ----- Creating patients -----------------------------------------------------------

  /** The handler of `POST /patients/` given what `create_patient_with_person`
      returned or raised. */
  function CreatePatientReply(result: Result<Patient>): (r: Reply<Patient>)
    ensures r.Ok? <==> result.Success?
    ensures r.Ok? ==> r.statusCode == StatusCreated && r.body == result.value
    ensures r.HttpError? && r.statusCode == StatusConflict <==> result.Failure? && result.error.DuplicatePatientError?
    ensures r.HttpError? && r.statusCode == StatusNotFound <==> result.Failure? && result.error.MedicalConditionNotFoundError?
    ensures r.HttpError? && r.statusCode == StatusServerError <==> result.Failure? && result.error.DatabaseError?
    ensures r.HttpError? && r.statusCode != StatusServerError ==> r.detail == Message(result.error)
    ensures r.HttpError? && r.statusCode == StatusServerError ==> r.detail == CreateFailedDetail
    ensures r.Propagated? <==> result.Failure? && !(result.error.DuplicatePatientError?
                                                    || result.error.MedicalConditionNotFoundError?
                                                    || result.error.DatabaseError?)
    ensures r.Propagated? ==> result == Failure(r.error)
  {
    match result
    case Success(p) => Ok(StatusCreated, p)
    case Failure(e) =>
      match e
      case DuplicatePatientError(_) => HttpError(StatusConflict, Message(e))
      case MedicalConditionNotFoundError(_) => HttpError(StatusNotFound, Message(e))
      case DatabaseError(_, _) => HttpError(StatusServerError, CreateFailedDetail)
      case _ => Propagated(e)
  }

  /** The handler of `POST /patients/with-person-id` given what
      `create_patient_with_existing_person` returned or raised. */
  function CreatePatientWithPersonIdReply(result: Result<Patient>): (r: Reply<Patient>)
    ensures r.Ok? <==> result.Success?
    ensures r.Ok? ==> r.statusCode == StatusCreated && r.body == result.value
    ensures r.HttpError? && r.statusCode == StatusConflict <==> result.Failure? && result.error.DuplicatePatientError?
    ensures r.HttpError? && r.statusCode == StatusNotFound <==>
              result.Failure? && (result.error.PersonNotFoundError? || result.error.MedicalConditionNotFoundError?)
    ensures r.HttpError? && r.statusCode == StatusServerError <==> result.Failure? && result.error.DatabaseError?
    ensures r.HttpError? && r.statusCode != StatusServerError ==> r.detail == Message(result.error)
    ensures r.HttpError? && r.statusCode == StatusServerError ==> r.detail == CreateFailedDetail
    ensures r.Propagated? <==> result.Failure? && !(result.error.PersonNotFoundError?
                                                    || result.error.DuplicatePatientError?
                                                    || result.error.MedicalConditionNotFoundError?
                                                    || result.error.DatabaseError?)
    ensures r.Propagated? ==> result == Failure(r.error)
  {
    match result
    case Success(p) => Ok(StatusCreated, p)
    case Failure(e) =>
      match e
      case PersonNotFoundError(_, _) => HttpError(StatusNotFound, Message(e))
      case DuplicatePatientError(_) => HttpError(StatusConflict, Message(e))
      case MedicalConditionNotFoundError(_) => HttpError(StatusNotFound, Message(e))
      case DatabaseError(_, _) => HttpError(StatusServerError, CreateFailedDetail)
      case _ => Propagated(e)
  }

  /** Over a valid store every outcome of `POST /patients/` is answered by
      the handler: 404 exactly when the condition is missing, 409 exactly
      when the email's person already has a patient, 201 otherwise. */
  lemma CreatePatientStatuses(t: Crud.Tables, personId: Uuid, patientId: Uuid, req: PatientCreate)
    requires Crud.Valid(t)
    requires personId !in t.persons && patientId !in t.patients
    ensures var r := CreatePatientReply(Crud.CreatePatientWithPerson(t, personId, patientId, req).result);
      && !r.Propagated?
      && (r.HttpError? ==> r.statusCode != StatusServerError)
      && (r.HttpError? && r.statusCode == StatusNotFound <==> req.medicalConditionId !in t.conditions)
      && (r.HttpError? && r.statusCode == StatusConflict <==>
            && req.medicalConditionId in t.conditions
            && Crud.EmailTaken(t, req.person.email)
            && Crud.HasPatient(t, Crud.GetPersonByEmail(t, req.person.email).value.personId))
  {
    if req.medicalConditionId in t.conditions {
      Crud.CreatePatientRefusesDuplicate(t, personId, patientId, req);
    }
  }

  /** Over a valid store `POST /patients/with-person-id` answers 404 exactly
      when the person or the condition is missing, and 409 exactly when both
      exist and the person already has a patient. */
  lemma CreatePatientWithPersonIdStatuses(t: Crud.Tables, patientId: Uuid, req: PatientCreateWithPersonId)
    requires Crud.Valid(t)
    requires patientId !in t.patients
    ensures var r := CreatePatientWithPersonIdReply(Crud.CreatePatientWithExistingPerson(t, patientId, req).result);
      && !r.Propagated?
      && (r.HttpError? ==> r.statusCode != StatusServerError)
      && (r.HttpError? && r.statusCode == StatusNotFound <==>
            req.personId !in t.persons || req.medicalConditionId !in t.conditions)
      && (r.HttpError? && r.statusCode == StatusConflict <==>
            req.personId in t.persons && req.medicalConditionId in t.conditions && Crud.HasPatient(t, req.personId))
  {
  }

  /** The refused duplicate of `POST /patients/` gets the same reply whether
      or not the merge is committed before the duplicate check. */
  lemma CreatePatientReplyIgnoresMergeOrder(t: Crud.Tables, personId: Uuid, patientId: Uuid, req: PatientCreate)
    requires Crud.Valid(t)
    requires personId !in t.persons && patientId !in t.patients
    ensures CreatePatientReply(Crud.CreatePatientWithPerson(t, personId, patientId, req).result)
            == CreatePatientReply(Crud.CreatePatientWithPersonAtomic(t, personId, patientId, req).result)
  {
    Crud.AtomicAgreesWithAsWritten(t, personId, patientId, req);
  }

  // ----- Call history of a patient -----------------------------------------------------

  /** `GET /patients/{id}/calls`: 404 for a patient that does not exist,
      before anything is listed; otherwise one page of the patient's calls,
      latest first. */
  function GetPatientCalls(t: Crud.Tables, scan: seq<Uuid>, patientId: Uuid, skip: nat, limit: int)
    : (r: Reply<seq<CallHistory>>)
    requires Crud.Valid(t)
    requires IsScan(scan, t.calls)
    requires MinLimit <= limit <= MaxLimit
    ensures r.HttpError? <==> patientId !in t.patients
    ensures r.HttpError? ==> r.statusCode == StatusNotFound && r.detail == Message(PatientNotFoundError(patientId))
    ensures !r.Propagated?
    ensures r.Ok? ==> && r.statusCode == StatusOk
                      && |r.body| == WindowLength(|set k | k in t.calls && t.calls[k].patientId == patientId|, skip, limit)
                      && (var ordered := SortByCallDate(Select(t.calls, scan, Crud.CallFilter(patientId)));
                          forall i :: 0 <= i < |r.body| ==> skip + i < |ordered| && r.body[i] == ordered[skip + i])
                      && |r.body| <= limit
                      && OrderedByCallDate(r.body)
                      && (forall c :: c in r.body ==> c.patientId == patientId && c in t.calls.Values)
  {
    if Crud.GetPatient(t, patientId).None? then
      HttpError(StatusNotFound, "Patient " + patientId + " not found")
    else
      var (calls, _) := Crud.GetCallHistoriesByPatient(t, scan, patientId, skip, limit);
      Ok(StatusOk, calls)
  }
}
