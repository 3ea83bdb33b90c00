# Patient navigation store — a Dafny model

The system tracks patients through a care journey. A **Person** (identity, unique email) may become a
**Patient** (at most one per person) with a **MedicalCondition** (unique name). Navigators log
**CallHistory** records against a patient, many per patient. A **Physician** is also tied to one person.
Its data-access layer creates, reads, updates and deletes these records. Two parts of it carry real logic:

- the returning-patient reconciliation in `create_patient_with_person`: a person is found by email or
  created, and the supplied name and phone are merged into the found person;
- the partial updates: only the fields the client set are written.

A thin HTTP layer pages the patient listing and maps the domain exceptions to status codes.

The model has seven modules, one file each:

- `Models` (`models.dfy`): the five record shapes, their unique columns, and which columns are non-null
  or have defaults.
- `Exceptions` (`exceptions.dfy`): the five domain exceptions, their message strings, and the store's
  own `IntegrityError` where the layer lets it escape. It also holds the `Result` an operation returns
  or raises.
- `Schemas` (`schemas.dfy`): the validated request shapes. An update lists the fields the client set,
  in declaration order, as `model_dump(exclude_unset=True)` yields them.
- `Listing` (`listing.dfy`): the query shapes.
  - a WHERE filter over the order in which the store returns rows;
  - OFFSET/LIMIT paging;
  - the ordering `call_date DESC NULLS LAST`.
- `Crud` (`crud.dfy`): the tables as one value, the store invariant `Valid` (keys, unique columns,
  foreign keys), and every operation of the data-access layer.
  - Each lookup and listing is a function.
  - Each write is a function from the tables before to an `Outcome`: the tables after, plus the value
    returned or the exception raised.
  - Lemmas relate the operations to one another.
- `Store` (`store.dfy`): a class with one map per table. Its methods change the maps in place, and the
  `setattr` loops of the updates are `while` loops. Each method is proved to leave exactly the tables
  its `Crud` function computes, to return the same result, and to keep `Valid`.
- `PatientRoutes` (`patient_routes.dfy`): the patient endpoints. It covers:
  - the `total_pages` and `page` arithmetic;
  - the exception-to-status mapping of both create endpoints;
  - the patient-exists guard of the call-history endpoint.

Some inputs become parameters rather than part of the model:

- Fresh primary keys (the source draws them from `uuid4`), as a parameter not already in the table.
- The order in which the store returns an unordered query, as a parameter `scan`: a duplicate-free
  listing of the table's keys.
- A commit, which is modelled as the state after the step. A rollback undoes only what was not yet
  committed.

## Model

| member | source | states |
|---|---|---|
| Models.UniqueIffAtMostOne | app/models.py:19 | A unique column holds each value in at most one row, and conversely |
| Models.AtMostOnePersonPerEmail | app/models.py:19 | With `person.email` unique there is at most one person per email |
| Models.AtMostOneConditionPerName | app/models.py:38 | With `medical_condition.name` unique there is at most one condition per name |
| Models.AtMostOnePatientPerPerson | app/models.py:56 | With `patient.person_id` unique each person has at most one patient |
| Models.AtMostOnePhysicianPerPerson | app/models.py:99 | With `physician.person_id` unique each person has at most one physician |
| Models.UniqueAfterPut | app/models.py:19 | Writing a row keeps a column unique when no other row holds the new value |
| Exceptions.PersonIdentifier | app/exceptions.py:21 | `person_id or email or "unknown"`: the person id if non-empty, else the email if non-empty, else "unknown"; never empty |
| Exceptions.Between | app/exceptions.py:12 | A message read back between a prefix and a suffix is exactly the text framed by them |
| Exceptions.BetweenOfFramed | app/exceptions.py:12 | Framing a text and reading it back returns the text |
| Exceptions.PatientNotFoundMessage | app/exceptions.py:10-12 | The message is "Patient {id} not found", and the id can be read back from it |
| Exceptions.PersonNotFoundMessage | app/exceptions.py:18-22 | The message is "Person {identifier} not found", where the identifier comes from the fallback chain |
| Exceptions.DuplicatePatientMessage | app/exceptions.py:28-30 | The message is "Patient already exists for person {id}" |
| Exceptions.MedicalConditionNotFoundMessage | app/exceptions.py:36-38 | The message is "Medical condition {id} not found" |
| Exceptions.MessagesIdentifySubjects | app/exceptions.py:10-38 | For PatientNotFoundError, DuplicatePatientError and MedicalConditionNotFoundError, two exceptions of one kind have the same message exactly when they name the same subject |
| Exceptions.Message | app/exceptions.py:10-46 | The `str()` of each exception: the formatted text for the four not-found and duplicate kinds, the given message for DatabaseError, and the store's detail for IntegrityError and DataError |
| Exceptions.DatabaseErrorKeepsMessage | app/exceptions.py:44-46 | A DatabaseError's message is the one given, and it keeps the original error |
| Schemas.Present | app/crud.py:90 | The set fields: every item comes from a filled slot, and every filled slot's item is there |
| Schemas.PresentAppend | app/crud.py:90 | The set fields keep declaration order: the fields of `a + b` are those of `a` followed by those of `b`, one per filled slot |
| Listing.Select | app/crud.py:259-266 | A WHERE filter returns only matching rows of the table, and every matching row |
| Listing.SelectCount | app/crud.py:265 | Over a duplicate-free scan, the filter returns one row per matching key |
| Listing.SelectCountsMatches | app/crud.py:265 | The number of rows kept is the number of matching rows, whatever the scan order |
| Listing.Window | app/crud.py:266 | OFFSET/LIMIT returns exactly the rows at positions skip, skip+1, …: `min(limit, n - skip)` of them, none when skip is past the end |
| Listing.OrderedCons | app/crud.py:448 | Putting a record that may precede every record in front of an ordered listing keeps it ordered |
| Listing.InsertByCallDate | app/crud.py:448 | Inserting a record adds exactly that record (as a multiset) |
| Listing.InsertKeepsOrder | app/crud.py:448 | Inserting into a listing ordered by `call_date DESC NULLS LAST` keeps it ordered |
| Listing.SortByCallDate | app/crud.py:448 | The sort is a permutation, ordered latest call first with undated calls last |
| Listing.WindowKeepsOrder | app/crud.py:448-451 | A page cut from an ordered listing is ordered |
| Crud.Valid | app/models.py:19-99 | The store invariant: rows keyed by id; email, condition name, patient person and physician person unique; every foreign key of patient and call history, and the physician's person, names an existing row; every stored call duration fits the 32-bit INTEGER column |
| Crud.ValidEnforcesDeclarations | app/models.py:19-99 | Over a valid store: at most one person per email, one condition per name, one patient and one physician per person; every patient's person and condition, and every call's patient, exist |
| Crud.GetPerson | app/crud.py:19-21 | Found exactly when the id is in the table; the row returned carries that id |
| Crud.GetPersonByEmail | app/crud.py:24-26 | Found exactly when some person has the email; the row returned is stored under its own id and has that email |
| Crud.GetMedicalCondition | app/crud.py:110-117 | Found exactly when the id is in the table; the row returned carries that id |
| Crud.GetPatient | app/crud.py:232-236 | Found exactly when the id is in the table; the row returned carries that id |
| Crud.GetPatientByPersonId | app/crud.py:239-246 | Found exactly when the person has a patient; the row returned is that patient |
| Crud.GetCallHistory | app/crud.py:432-436 | Found exactly when the id is in the table; the row returned carries that id |
| Crud.GetPersons | app/crud.py:29-41 | The page is the slice [skip, skip+limit) of the persons passing the `is_active` filter, in scan order; its length is cut from the number of matching persons |
| Crud.GetMedicalConditions | app/crud.py:120-132 | The page is the slice [skip, skip+limit) of the conditions passing the `is_active` filter; its length is cut from the number of matching conditions |
| Crud.UnfilteredPersons | app/crud.py:36-41 | With no `is_active` given, the person listing is the slice [skip, skip+limit) of all persons, in scan order |
| Crud.UnfilteredMedicalConditions | app/crud.py:127-132 | With no `is_active` given, the condition listing is the slice [skip, skip+limit) of all conditions, in scan order |
| Crud.GetPatients | app/crud.py:249-268 | The total is the number of stored patients matching both filters, before paging. The page is the slice [skip, skip+limit) of the matches, of length `min(limit, total - skip)` |
| Crud.PatientFiltersApplyOnlyWhenGiven | app/crud.py:259-263 | An empty status lists as no status. With neither filter, the total is the number of patients and the page is the slice of all of them |
| Crud.GetCallHistoriesByPatient | app/crud.py:439-453 | The total is the number of the patient's records, ignoring paging. The page is the slice [skip, skip+limit) of those records sorted by call date descending with undated calls last, so it is itself so ordered |
| Crud.ApplyMaybeThen | app/crud.py:91-92 | Writing an optional first field and then the rest is writing the rest to the row after the first |
| Crud.ApplyPresent | app/crud.py:90-92 | Looping over the set fields is writing each filled slot in turn |
| Crud.PersonUpdateWritesOnlySetFields | app/crud.py:86-92 | The loop writes exactly the set fields of a person; every other field and the key keep their values |
| Crud.MedicalConditionUpdateWritesOnlySetFields | app/crud.py:181-187 | The same for a medical condition |
| Crud.PatientUpdateWritesOnlySetFields | app/crud.py:408-414 | The same for a patient; `person_id` is never written |
| Crud.WriteSlotsAppend | app/crud.py:515-516 | The `setattr` loop over the slots `a + b` ends where the loop over `b` ends when started from the row the loop over `a` leaves; this lets the eight call-record fields be handled four at a time |
| Crud.CallHistoryScheduleSlots | app/crud.py:515-516 | The first four slots of a call-record update write only the navigator and the three dates |
| Crud.CallHistoryOutcomeSlots | app/crud.py:515-516 | The last four slots write only no-show, duration, outcome and notes |
| Crud.CallHistoryUpdateWritesOnlySetFields | app/crud.py:510-516 | The same for a call record; the key and `patient_id` are never written |
| Crud.NewPerson | app/crud.py:58-64 | The created person has the request's names, email and phone, and is active (app/models.py:23) |
| Crud.CreatePerson | app/crud.py:44-77 | Keeps `Valid`. Fails exactly when the email is taken, with the duplicate-email DatabaseError and nothing written. Otherwise inserts exactly the new person and changes no other table |
| Crud.UpdatePerson | app/crud.py:80-96 | None for an unknown id. An email another person holds raises IntegrityError and writes nothing. Otherwise only this person becomes the updated row |
| Crud.DeletePerson | app/crud.py:99-107 | Returns whether the id exists; the row stays with `is_active` false; nothing else changes |
| Crud.NewMedicalCondition | app/crud.py:141-145 | The created condition has the request's fields and is active (app/models.py:41) |
| Crud.CreateMedicalCondition | app/crud.py:135-158 | Fails exactly when the name is taken, with the duplicate-name DatabaseError and nothing written; otherwise inserts the new condition |
| Crud.UpdateMedicalCondition | app/crud.py:161-200 | None for an unknown id. A name another condition holds gives the duplicate-name DatabaseError and writes nothing. Otherwise only this condition becomes the updated row |
| Crud.DeleteMedicalCondition | app/crud.py:203-229 | Returns whether the id exists; the row stays with `is_active` false |
| Crud.MergeDetails | app/crud.py:305-310 | Name and phone are overwritten only where the supplied value is non-empty; id, email and active flag stay |
| Crud.MergeKeepsValid | app/crud.py:305-311 | The merge keeps the store invariant |
| Crud.AddPatient | app/crud.py:315-330 | Refuses a second patient for the person (DuplicatePatient, nothing written) and otherwise inserts exactly one patient. The new patient has the given person, condition, dates and status |
| Crud.CreatePatientWithPerson | app/crud.py:271-341 | Keeps `Valid` and touches no condition, call or physician. A missing condition raises MedicalConditionNotFound before any lookup, and nothing changes |
| Crud.CreatePatientWithExistingPerson | app/crud.py:344-399 | Checks in order PersonNotFound, MedicalConditionNotFound, DuplicatePatient. Succeeds exactly when all three pass. Never writes a person. Inserts exactly one patient on success and nothing otherwise |
| Crud.CreatePatientResolvesPersonByEmail | app/crud.py:299-312 | With no person for the email, exactly one new active person is created from the request. Otherwise no person is created, only the merge is written, and the email is unchanged |
| Crud.CreatePatientRefusesDuplicate | app/crud.py:311-317 | Refused exactly when the email's person already has a patient. The patient table is then unchanged, but the merge stays committed |
| Crud.CreatePatientInsertsOne | app/crud.py:319-330 | On success exactly one patient is inserted, for the resolved person, with the request's condition and dates, and status "active" when omitted |
| Crud.DuplicateRejectionStillMerges | app/crud.py:311-317 | A concrete store where a refused request still renames the person "Ann" to "Anne" |
| Crud.CreatePatientWithPersonAtomic | app/crud.py:299-330 | The corrected reconciliation keeps `Valid` |
| Crud.AtomicFailureChangesNothing | app/crud.py:331-333 | With the duplicate check first, a refused request leaves every table as it was |
| Crud.AtomicAgreesWithAsWritten | app/crud.py:271-341 | The corrected reconciliation returns the same result as the one as written for every request, and leaves the same tables whenever it succeeds |
| Crud.SecondRequestSameEmailIsDuplicate | app/crud.py:299-317 | After a patient is created for an email, a second request with that email is refused as a duplicate of the same person |
| Crud.UpdatePatient | app/crud.py:402-418 | None for an unknown id. A condition id naming no condition violates the foreign key and writes nothing. Otherwise only this patient becomes the updated row |
| Crud.DeletePatient | app/crud.py:421-429 | False for an unknown id. With call records left, the commit fails and nothing changes. Otherwise the row is removed, and `get_patient` then returns None |
| Crud.NewCallHistory | app/crud.py:479-489 | Every column comes from the request (patient, navigator, the three dates, duration, outcome, notes); `no_show` is false unless set (app/models.py:82), and the duration is never negative |
| Crud.CreateCallHistory | app/crud.py:456-501 | PatientNotFound for an unknown patient. A duration above 2^31-1 gives the wrapped out-of-range failure, then an unknown navigator the wrapped foreign-key failure. Succeeds exactly when the patient exists, the duration fits and the navigator resolves; inserts one record on success and nothing otherwise |
| Crud.UpdateCallHistory | app/crud.py:504-520 | None for an unknown id. An updated duration above 2^31-1 raises the unwrapped out-of-range error, then a navigator naming no person the unwrapped foreign-key error; either writes nothing. Otherwise only this record becomes the updated row |
| Crud.DeleteCallHistory | app/crud.py:523-531 | Returns whether the id existed; the row is removed, and `get_call_history` then returns None |
| Crud.EmptyPersonUpdateChangesNothing | app/crud.py:86-96 | An update with no field set changes nothing and returns the stored person |
| Crud.EmptyMedicalConditionUpdateChangesNothing | app/crud.py:181-200 | An update with no field set changes nothing and returns the stored condition |
| Crud.EmptyPatientUpdateChangesNothing | app/crud.py:408-418 | An update with no field set changes nothing and returns the stored patient |
| Crud.EmptyCallHistoryUpdateChangesNothing | app/crud.py:510-520 | An update with no field set changes nothing and returns the stored record |
| Crud.CreateCallHistoryAppends | app/crud.py:479-494 | Adding a record leaves every earlier record unchanged. The patient's records grow by exactly the new one, and other patients' records are unchanged |
| Crud.SoftDeletedPersonStillFound | app/crud.py:99-107 | After a soft delete the person is still found by id and by email, inactive |
| Crud.SoftDeletedConditionStillFound | app/crud.py:203-225 | After a soft delete the condition is still found, inactive |
| Store.Store.constructor | app/models.py:12-104 | A new store has empty tables, which satisfy `Valid` |
| Store.WriteFields | app/crud.py:91-92 | The `setattr` loop as a `while` loop: its invariant proves it leaves the row the fold `ApplyItems` over the set fields computes |
| Store.Store.CreatePerson | app/crud.py:44-77 | Leaves the tables `Crud.CreatePerson` computes, returns its result, and keeps `Valid` |
| Store.Store.UpdatePerson | app/crud.py:80-96 | The `setattr` loop, proved by its invariant to compute `UpdatedPerson`; then the state and result of `Crud.UpdatePerson` |
| Store.Store.DeletePerson | app/crud.py:99-107 | Sets `is_active` false in place; the state and result of `Crud.DeletePerson` |
| Store.Store.CreateMedicalCondition | app/crud.py:135-158 | The state and result of `Crud.CreateMedicalCondition` |
| Store.Store.UpdateMedicalCondition | app/crud.py:161-200 | The `setattr` loop and its invariant; the state and result of `Crud.UpdateMedicalCondition` |
| Store.Store.DeleteMedicalCondition | app/crud.py:203-229 | The state and result of `Crud.DeleteMedicalCondition` |
| Store.Store.AddPatient | app/crud.py:315-330 | The state and result of `Crud.AddPatient` |
| Store.Store.MergeExistingPerson | app/crud.py:305-311 | Writes the merged person in place and changes no other table |
| Store.Store.CreatePatientWithPerson | app/crud.py:271-341 | The four steps in order, calling `CreatePerson` and `AddPatient`; the state and result of `Crud.CreatePatientWithPerson` |
| Store.Store.CreatePatientWithExistingPerson | app/crud.py:344-399 | The state and result of `Crud.CreatePatientWithExistingPerson` |
| Store.Store.UpdatePatient | app/crud.py:402-418 | The `setattr` loop and its invariant; the state and result of `Crud.UpdatePatient` |
| Store.Store.DeletePatient | app/crud.py:421-429 | The state and result of `Crud.DeletePatient` |
| Store.Store.CreateCallHistory | app/crud.py:456-501 | The state and result of `Crud.CreateCallHistory` |
| Store.Store.UpdateCallHistory | app/crud.py:504-520 | The `setattr` loop and its invariant; the state and result of `Crud.UpdateCallHistory` |
| Store.Store.DeleteCallHistory | app/crud.py:523-531 | The state and result of `Crud.DeleteCallHistory` |
| PatientRoutes.TotalPages | app/routes/patients.py:166 | `ceil(total/limit)` is the least number of pages of `limit` rows that hold `total`. It is 0 exactly when total is 0 |
| PatientRoutes.PageNumber | app/routes/patients.py:167 | `skip // limit + 1` is the 1-based page on which row `skip` falls |
| PatientRoutes.ReadPatients | app/routes/patients.py:147-175 | `total` counts every matching patient. `items` is the slice [skip, skip+limit) of the matches. `total_pages` is `TotalPages(total, limit)`, `page` is `PageNumber(skip, limit)` and `page_size` is `limit` |
| PatientRoutes.PageWithinTotalPages | app/routes/patients.py:166-167 | The page of a row that exists is between 1 and `total_pages` |
| PatientRoutes.NonEmptyPageWithinTotalPages | app/routes/patients.py:162-175 | A page that holds rows is numbered at most `total_pages` |
| PatientRoutes.EmptyStoreListsNothing | tests/test_patients.py:20-25 | With no patients, items are empty, total and page count are 0, and the page size is the limit |
| PatientRoutes.CreatePatientReply | app/routes/patients.py:59-81 | 201 with the patient on success. 409 exactly for DuplicatePatient and 404 exactly for MedicalConditionNotFound, each with the exception's message. 500 exactly for DatabaseError, with the generic detail. Anything else propagates |
| PatientRoutes.CreatePatientWithPersonIdReply | app/routes/patients.py:110-138 | 201 on success. 404 exactly for PersonNotFound or MedicalConditionNotFound, and 409 exactly for DuplicatePatient, each with the message. 500 exactly for DatabaseError |
| PatientRoutes.CreatePatientStatuses | app/routes/patients.py:59-81 | Over a valid store nothing propagates and no 500 occurs. 404 exactly when the condition is missing, and 409 exactly when the email's person already has a patient |
| PatientRoutes.CreatePatientWithPersonIdStatuses | app/routes/patients.py:110-138 | Over a valid store nothing propagates. 404 exactly when the person or the condition is missing, and 409 exactly when both exist and the person has a patient |
| PatientRoutes.CreatePatientReplyIgnoresMergeOrder | app/routes/patients.py:59-81 | The reply to every request is the same with the merge committed before or after the duplicate check |
| PatientRoutes.GetPatientCalls | app/routes/patients.py:258-273 | 404 with "Patient {id} not found" exactly when the patient does not exist. Otherwise 200 with the slice [skip, skip+limit) of the patient's records, ordered by call date |

## Left out

- Session mechanics (`commit`, `refresh`, `rollback`, pooling). A commit is the state after the step.
- Server-side timestamps (`created_at`, `updated_at`) are not modelled. Primary keys are parameters known to be fresh rather than `uuid4` values.
- Logging calls.
- The concurrent-commit race on unique constraints. Because of it, the generic `SQLAlchemyError` handlers of the create operations are not modelled beyond the sequential failures named in the table (for example app/crud.py:334-341). These are the "constraint violation" and "Database operation failed" wrappers of `create_patient_with_person` and `create_patient_with_existing_person`. In a sequential run over a valid store they cannot fire.
- The text of a store `IntegrityError` is the database driver's. The model keeps only the violated column, for example "person.email". So the wrapped message of `create_call_history` is "Database operation failed: " followed by that column.
- Pydantic validation (EmailStr, string lengths, `ge=0` on the call duration) is library behaviour. So a requested duration is a `nat`; its upper bound is the column's, modelled as `Models.MaxInteger`.
- Crud.UpdatePerson: an explicit null for first_name, last_name, email or is_active passes validation, and the commit then fails on the NOT NULL column (app/models.py:17-19, 23) with an IntegrityError that propagates. The update types hold `None` only for "not set", so this request cannot be written.
- Crud.UpdateMedicalCondition: an explicit null for name or is_active (app/models.py:38, 41) fails at the commit; the IntegrityError is wrapped as the DatabaseError of app/crud.py:196. The request cannot be written in the model's update types.
- Crud.UpdatePatient: an explicit null for medical_condition_id or status (app/models.py:57, 60) fails at the commit with an IntegrityError that propagates. The request cannot be written in the model's update types.
- Crud.UpdateCallHistory: an explicit null for no_show (app/models.py:82) fails at the commit with an IntegrityError that propagates. The request cannot be written in the model's update types.
- Crud.CreatePatientWithPerson: because of this validation, the first and last names of the request are non-empty (app/schemas.py:12-13), so the merge always overwrites them. The model still keeps the source's emptiness tests.
- The query bounds `skip >= 0` and `1 <= limit <= 1000` (app/routes/patients.py:148-149, 260-261) are preconditions of the route functions. FastAPI's 422 reply for values out of range is not modelled.
- PatientRoutes.TotalPages: `ceil(total / limit)` is computed in floating point; the model uses exact integer ceiling. They differ only for totals beyond 2^53.
- `create_patient` docstring (app/routes/patients.py:55) says a duplicate patient gives 400; the code answers 409, and the model follows the code.
- Status code 200 and the JSON serialisation of response bodies are FastAPI's defaults. Only the status and the body value are modelled.
- `db.refresh` after a create is not modelled; it does not change the stored row.
- The other endpoints of app/routes/patients.py (read one, update, delete) are not part of this model. They are thin None-to-404 wrappers. So are the call-history and medical-condition route files and `app/main.py`.
- Physician rows are part of the tables and the invariant, but the data-access layer has no physician operations.
- `Hospital` and the other models without a data-access operation are not part of this model.
- Call-history listing order among records with equal call dates is left to the store. The model fixes one order (insertion sort from the scan order) and proves only the ordering property.

## Findings

| source | as written | input that shows it | evidently intended | confidence | as-written member | corrected member |
|---|---|---|---|---|---|---|
| app/crud.py:311-317, 331-333 | The merge into an existing person is committed before the duplicate-patient check, so the rollback after DuplicatePatientError does not undo it | A person "Ann" with a patient, and a request with the same email and first name "Anne": DuplicatePatient is raised, yet the person is renamed "Anne" | A refused request changes nothing: check for a duplicate before merging | not executed | Crud.DuplicateRejectionStillMerges | Crud.AtomicFailureChangesNothing |

The `Store` class and the routes follow the code as written (`Crud.CreatePatientWithPerson`). The
corrected `Crud.CreatePatientWithPersonAtomic` returns the same result for every request
(`Crud.AtomicAgreesWithAsWritten`). So every reply of `POST /patients/` is the same under either
(`PatientRoutes.CreatePatientReplyIgnoresMergeOrder`). Only the stored person after a refused request
differs.
