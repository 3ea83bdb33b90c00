/** The store as the data-access layer changes it: one map per table, keyed
    by primary key, written in place. Each method does what its function in
    `Crud` specifies: it leaves the tables that function computes and returns
    the same result. The `setattr` loops of the update operations are the
    loops below. */
module Store {
  import opened Models
  import opened Exceptions
  import opened Schemas
  import Crud

  /** The `setattr` loop of the update operations: each supplied field
      written onto the row in the order the request lists them. */
  method WriteFields<R, F>(row: R, items: seq<F>, assign: (R, F) -> R) returns (q: R)
    ensures q == Crud.ApplyItems(row, items, assign)
  {
    q := row;
    var i := 0;
    while i < |items|
      invariant 0 <= i <= |items|
      invariant Crud.ApplyItems(q, items[i..], assign) == Crud.ApplyItems(row, items, assign)
    {
      assert items[i..][1..] == items[i + 1..];
      q := assign(q, items[i]);
      i := i + 1;
    }
  }

  class Store {
    var persons: map<Uuid, Person>
    var conditions: map<Uuid, MedicalCondition>
    var patients: map<Uuid, Patient>
    var calls: map<Uuid, CallHistory>
    var physicians: map<Uuid, Physician>

    /** The tables as one value. */
    function Tables(): Crud.Tables
      reads this
    {
      Crud.Tables(persons, conditions, patients, calls, physicians)
    }

    predicate Valid()
      reads this
    {
      Crud.Valid(Tables())
    }

    constructor()
      ensures Tables() == Crud.EmptyTables
      ensures Valid()
    {
      persons, conditions, patients, calls, physicians := map[], map[], map[], map[], map[];
    }

    // ----- Persons -----------------------------------------------------------------

    method CreatePerson(id: Uuid, p: PersonCreate) returns (r: Result<Person>)
      requires Valid()
      requires id !in persons
      modifies this
      ensures Valid()
      ensures Tables() == Crud.CreatePerson(old(Tables()), id, p).after
      ensures r == Crud.CreatePerson(old(Tables()), id, p).result
    {
      // Names the specified outcome so the prover can unfold it once.
      ghost var o := Crud.CreatePerson(Tables(), id, p);
      if exists k :: k in persons && persons[k].email == p.email {
        r := Failure(DatabaseError(Crud.DuplicatePersonMessage, Some(IntegrityError(Crud.PersonEmailColumn))));
        return;
      }
      var row := Crud.NewPerson(id, p);
      persons := persons[id := row];
      r := Success(row);
    }

    method UpdatePerson(id: Uuid, u: PersonUpdate) returns (r: Result<Option<Person>>)
      requires Valid()
      modifies this
      ensures Valid()
      ensures Tables() == Crud.UpdatePerson(old(Tables()), id, u).after
      ensures r == Crud.UpdatePerson(old(Tables()), id, u).result
    {
      // Names the specified outcome so the prover can unfold it once.
      ghost var o := Crud.UpdatePerson(Tables(), id, u);
      if id !in persons {
        r := Success(None);
        return;
      }
      var row := WriteFields(persons[id], PersonUpdateItems(u), Crud.SetPersonField);
      if exists k :: k in persons && k != id && persons[k].email == row.email {
        r := Failure(IntegrityError(Crud.PersonEmailColumn));
        return;
      }
      persons := persons[id := row];
      r := Success(Some(row));
    }

    method DeletePerson(id: Uuid) returns (r: Result<bool>)
      requires Valid()
      modifies this
      ensures Valid()
      ensures Tables() == Crud.DeletePerson(old(Tables()), id).after
      ensures r == Crud.DeletePerson(old(Tables()), id).result
    {
      // Names the specified outcome so the prover can unfold it once.
      ghost var o := Crud.DeletePerson(Tables(), id);
      if id !in persons {
        r := Success(false);
        return;
      }
      persons := persons[id := persons[id].(isActive := false)];
      r := Success(true);
    }

    // ----- Medical conditions ---------------------------------------------------------

    method CreateMedicalCondition(id: Uuid, c: MedicalConditionCreate) returns (r: Result<MedicalCondition>)
      requires Valid()
      requires id !in conditions
      modifies this
      ensures Valid()
      ensures Tables() == Crud.CreateMedicalCondition(old(Tables()), id, c).after
      ensures r == Crud.CreateMedicalCondition(old(Tables()), id, c).result
    {
      // Names the specified outcome so the prover can unfold it once.
      ghost var o := Crud.CreateMedicalCondition(Tables(), id, c);
      if exists k :: k in conditions && k != id && conditions[k].name == c.name {
        r := Failure(DatabaseError(Crud.DuplicateConditionOnCreateMessage, Some(IntegrityError(Crud.ConditionNameColumn))));
        return;
      }
      var row := Crud.NewMedicalCondition(id, c);
      conditions := conditions[id := row];
      r := Success(row);
    }

    method UpdateMedicalCondition(id: Uuid, u: MedicalConditionUpdate) returns (r: Result<Option<MedicalCondition>>)
      requires Valid()
      modifies this
      ensures Valid()
      ensures Tables() == Crud.UpdateMedicalCondition(old(Tables()), id, u).after
      ensures r == Crud.UpdateMedicalCondition(old(Tables()), id, u).result
    {
      // Names the specified outcome so the prover can unfold it once.
      ghost var o := Crud.UpdateMedicalCondition(Tables(), id, u);
      if id !in conditions {
        r := Success(None);
        return;
      }
      var row := WriteFields(conditions[id], MedicalConditionUpdateItems(u), Crud.SetMedicalConditionField);
      if exists k :: k in conditions && k != id && conditions[k].name == row.name {
        r := Failure(DatabaseError(Crud.DuplicateConditionOnUpdateMessage, Some(IntegrityError(Crud.ConditionNameColumn))));
        return;
      }
      conditions := conditions[id := row];
      r := Success(Some(row));
    }

    method DeleteMedicalCondition(id: Uuid) returns (r: Result<bool>)
      requires Valid()
      modifies this
      ensures Valid()
      ensures Tables() == Crud.DeleteMedicalCondition(old(Tables()), id).after
      ensures r == Crud.DeleteMedicalCondition(old(Tables()), id).result
    {
      // Names the specified outcome so the prover can unfold it once.
      ghost var o := Crud.DeleteMedicalCondition(Tables(), id);
      if id !in conditions {
        r := Success(false);
        return;
      }
      conditions := conditions[id := conditions[id].(isActive := false)];
      r := Success(true);
    }

    // ----- Patients -------------------------------------------------------------------

    /** Step 4 of both ways of creating a patient. */
    method AddPatient(patientId: Uuid, personId: Uuid, medicalConditionId: Uuid,
                      firstContactDate: Option<Date>, initialConsultDate: Option<Date>, status: string)
      returns (r: Result<Patient>)
      requires Valid()
      requires patientId !in patients && personId in persons && medicalConditionId in conditions
      modifies this
      ensures Valid()
      ensures var o := Crud.AddPatient(old(Tables()), patientId, personId, medicalConditionId,
                                       firstContactDate, initialConsultDate, status);
        Tables() == o.after && r == o.result
    {
      // Names the specified outcome so the prover can unfold it once.
      ghost var o := Crud.AddPatient(Tables(), patientId, personId, medicalConditionId,
                                     firstContactDate, initialConsultDate, status);
      if exists k :: k in patients && patients[k].personId == personId {
        assert Crud.HasPatient(Tables(), personId);
        r := Failure(DuplicatePatientError(personId));
        return;
      }
      var row := Patient(patientId, personId, medicalConditionId, firstContactDate, initialConsultDate, status);
      patients := patients[patientId := row];
      r := Success(row);
      assert Tables() == o.after;
    }

    /** Step 3 of `create_patient_with_person`: overwrite the found person's
        names and phone with the supplied ones where those are non-empty. */
    method MergeExistingPerson(k: Uuid, c: PersonCreate)
      requires Valid()
      requires k in persons
      modifies this
      ensures Valid()
      ensures persons == old(persons)[k := Crud.MergeDetails(old(persons)[k], c)]
      ensures conditions == old(conditions) && patients == old(patients)
      ensures calls == old(calls) && physicians == old(physicians)
    {
      var person := persons[k];
      if c.firstName != "" {
        person := person.(firstName := c.firstName);
      }
      if c.lastName != "" {
        person := person.(lastName := c.lastName);
      }
      if Truthy(c.phone) {
        person := person.(phone := c.phone);
      }
      Crud.MergeKeepsValid(Tables(), persons[k], c);
      persons := persons[k := person];
    }

    /** `create_patient_with_person`, with its four steps in order. */
    method CreatePatientWithPerson(personId: Uuid, patientId: Uuid, req: PatientCreate) returns (r: Result<Patient>)
      requires Valid()
      requires personId !in persons && patientId !in patients
      modifies this
      ensures Valid()
      ensures Tables() == Crud.CreatePatientWithPerson(old(Tables()), personId, patientId, req).after
      ensures r == Crud.CreatePatientWithPerson(old(Tables()), personId, patientId, req).result
    {
      // Names the specified outcome so the prover can unfold it once.
      ghost var o := Crud.CreatePatientWithPerson(Tables(), personId, patientId, req);
      if req.medicalConditionId !in conditions {
        r := Failure(MedicalConditionNotFoundError(req.medicalConditionId));
        return;
      }
      var person: Person;
      if exists k :: k in persons && persons[k].email == req.person.email {
        var k :| k in persons && persons[k].email == req.person.email;
        assert Crud.EmailTaken(Tables(), req.person.email);
        ghost var existing := Crud.GetPersonByEmail(Tables(), req.person.email).value;
        assert existing == persons[k];
        MergeExistingPerson(k, req.person);
        person := persons[k];
      } else {
        assert Crud.GetPersonByEmail(Tables(), req.person.email) == None;
        var created := CreatePerson(personId, req.person);
        match created
        case Failure(e) =>
          assert false;
          r := Failure(e);
          return;
        case Success(p) =>
          person := p;
      }
      r := AddPatient(patientId, person.personId, req.medicalConditionId,
                      req.firstContactDate, req.initialConsultDate, StatusOrDefault(req.status));
    }

    method CreatePatientWithExistingPerson(patientId: Uuid, req: PatientCreateWithPersonId) returns (r: Result<Patient>)
      requires Valid()
      requires patientId !in patients
      modifies this
      ensures Valid()
      ensures Tables() == Crud.CreatePatientWithExistingPerson(old(Tables()), patientId, req).after
      ensures r == Crud.CreatePatientWithExistingPerson(old(Tables()), patientId, req).result
    {
      // Names the specified outcome so the prover can unfold it once.
      ghost var o := Crud.CreatePatientWithExistingPerson(Tables(), patientId, req);
      if req.personId !in persons {
        r := Failure(PersonNotFoundError(Some(req.personId), None));
        return;
      }
      if req.medicalConditionId !in conditions {
        r := Failure(MedicalConditionNotFoundError(req.medicalConditionId));
        return;
      }
      r := AddPatient(patientId, req.personId, req.medicalConditionId,
                      req.firstContactDate, req.initialConsultDate, StatusOrDefault(req.status));
    }

    method UpdatePatient(id: Uuid, u: PatientUpdate) returns (r: Result<Option<Patient>>)
      requires Valid()
      modifies this
      ensures Valid()
      ensures Tables() == Crud.UpdatePatient(old(Tables()), id, u).after
      ensures r == Crud.UpdatePatient(old(Tables()), id, u).result
    {
      // Names the specified outcome so the prover can unfold it once.
      ghost var o := Crud.UpdatePatient(Tables(), id, u);
      if id !in patients {
        r := Success(None);
        return;
      }
      var row := WriteFields(patients[id], PatientUpdateItems(u), Crud.SetPatientField);
      if row.medicalConditionId !in conditions {
        r := Failure(IntegrityError(Crud.PatientConditionColumn));
        return;
      }
      patients := patients[id := row];
      r := Success(Some(row));
    }

    method DeletePatient(id: Uuid) returns (r: Result<bool>)
      requires Valid()
      modifies this
      ensures Valid()
      ensures Tables() == Crud.DeletePatient(old(Tables()), id).after
      ensures r == Crud.DeletePatient(old(Tables()), id).result
    {
      // Names the specified outcome so the prover can unfold it once.
      ghost var o := Crud.DeletePatient(Tables(), id);
      if id !in patients {
        r := Success(false);
        return;
      }
      if exists k :: k in calls && calls[k].patientId == id {
        r := Failure(IntegrityError(Crud.CallPatientColumn));
        return;
      }
      patients := patients - {id};
      r := Success(true);
    }

    // ----- Call records ------------------------------------------------------------------

    method CreateCallHistory(id: Uuid, c: CallHistoryCreate) returns (r: Result<CallHistory>)
      requires Valid()
      requires id !in calls
      modifies this
      ensures Valid()
      ensures Tables() == Crud.CreateCallHistory(old(Tables()), id, c).after
      ensures r == Crud.CreateCallHistory(old(Tables()), id, c).result
    {
      // Names the specified outcome so the prover can unfold it once.
      ghost var o := Crud.CreateCallHistory(Tables(), id, c);
      if c.patientId !in patients {
        r := Failure(PatientNotFoundError(c.patientId));
        return;
      }
      var row := Crud.NewCallHistory(id, c);
      if !Crud.FitsInteger(row.callDurationMinutes) {
        var e := DataError(Crud.CallDurationColumn);
        r := Failure(DatabaseError(Crud.DatabaseFailurePrefix + Message(e), Some(e)));
        return;
      }
      if c.pnId.Some? && c.pnId.value !in persons {
        var e := IntegrityError(Crud.CallNavigatorColumn);
        r := Failure(DatabaseError(Crud.DatabaseFailurePrefix + Message(e), Some(e)));
        return;
      }
      calls := calls[id := row];
      r := Success(row);
    }

    method UpdateCallHistory(id: Uuid, u: CallHistoryUpdate) returns (r: Result<Option<CallHistory>>)
      requires Valid()
      modifies this
      ensures Valid()
      ensures Tables() == Crud.UpdateCallHistory(old(Tables()), id, u).after
      ensures r == Crud.UpdateCallHistory(old(Tables()), id, u).result
    {
      // Names the specified outcome so the prover can unfold it once.
      ghost var o := Crud.UpdateCallHistory(Tables(), id, u);
      if id !in calls {
        r := Success(None);
        return;
      }
      var row := WriteFields(calls[id], CallHistoryUpdateItems(u), Crud.SetCallHistoryField);
      if !Crud.FitsInteger(row.callDurationMinutes) {
        r := Failure(DataError(Crud.CallDurationColumn));
        return;
      }
      if row.pnId.Some? && row.pnId.value !in persons {
        r := Failure(IntegrityError(Crud.CallNavigatorColumn));
        return;
      }
      calls := calls[id := row];
      r := Success(Some(row));
    }

    method DeleteCallHistory(id: Uuid) returns (r: Result<bool>)
      requires Valid()
      modifies this
      ensures Valid()
      ensures Tables() == Crud.DeleteCallHistory(old(Tables()), id).after
      ensures r == Crud.DeleteCallHistory(old(Tables()), id).result
    {
      // Names the specified outcome so the prover can unfold it once.
      ghost var o := Crud.DeleteCallHistory(Tables(), id);
      r := Success(id in calls);
      calls := calls - {id};
    }
  }
}
